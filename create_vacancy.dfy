/**
 * The vacancy form: the skill list, the question list and the check that
 * enables the submit button.
 */
module CreateVacancy {
  import opened Wrappers
  import opened Text
  import opened Uuid
  import opened Seqs

  // ---------------------------------------------------------------------
  // skills

  /** What the skill list keeps: no blank entry, none with white space at its ends, no repeats. */
  ghost predicate SkillListOk(skills: seq<string>) {
    && (forall i :: 0 <= i < |skills| ==> skills[i] != "" && Trim(skills[i]) == skills[i])
    && (forall i, j :: 0 <= i < j < |skills| ==> skills[i] != skills[j])
  }

  function OtherSkill(skill: string): string -> bool {
    k => k != skill
  }

  /** The skills left after the chip of `skill` is deleted. */
  function WithoutSkill(skills: seq<string>, skill: string): (r: seq<string>)
    ensures skill !in r
    ensures forall k :: k in r <==> k in skills && k != skill
  {
    var r := Filter(skills, OtherSkill(skill));
    forall k | k in skills && k != skill ensures k in r {
      FilterKeeps(skills, OtherSkill(skill), k);
    }
    r
  }

  /** Deleting keeps the order of the remaining skills and keeps the list well formed. */
  lemma WithoutSkillKeepsOrder(skills: seq<string>, skill: string)
    ensures SubsequenceAt(WithoutSkill(skills, skill), skills, KeptIndices(skills, OtherSkill(skill)))
    ensures SkillListOk(skills) ==> SkillListOk(WithoutSkill(skills, skill))
  {
    var r := WithoutSkill(skills, skill);
    var idx := KeptIndices(skills, OtherSkill(skill));
    FilterIsSubsequence(skills, OtherSkill(skill));
    if SkillListOk(skills) {
      forall i, j | 0 <= i < j < |r| ensures r[i] != r[j] {
        assert r[i] == skills[idx[i]] && r[j] == skills[idx[j]] && idx[i] < idx[j];
      }
    }
  }

  /** Appending a trimmed, non-blank skill that is not yet listed keeps the list well formed. */
  lemma SkillListAppend(skills: seq<string>, t: string)
    requires SkillListOk(skills)
    requires t != "" && Trim(t) == t && t !in skills
    ensures SkillListOk(skills + [t])
  {
    var r := skills + [t];
    forall i, j | 0 <= i < j < |r| ensures r[i] != r[j] {
      if j == |skills| { assert r[i] in skills; }
    }
  }

  /** Adding the trimmed input as handleAddSkill does keeps the list well formed. */
  lemma AddTrimmedSkill(skills: seq<string>, input: string)
    requires SkillListOk(skills)
    requires Trim(input) != "" && Trim(input) !in skills
    ensures SkillListOk(skills + [Trim(input)])
  {
    TrimIdempotent(input);
    SkillListAppend(skills, Trim(input));
  }

  // ---------------------------------------------------------------------
  // questions

  /** A question as the form holds it; `timeLimit` is in seconds. */
  datatype Question = Question(id: string, text: string, timeLimit: int, expectedAnswer: string)

  /** The three inputs of a question card that call handleQuestionChange. */
  datatype QuestionEdit = EditText(text: string) | EditTimeLimit(seconds: int) | EditExpectedAnswer(answer: string)

  function ApplyEdit(q: Question, edit: QuestionEdit): (r: Question)
    ensures r.id == q.id
  {
    match edit
    case EditText(t) => q.(text := t)
    case EditTimeLimit(n) => q.(timeLimit := n)
    case EditExpectedAnswer(a) => q.(expectedAnswer := a)
  }

  /** The question the form opens with. */
  const FirstQuestion := Question("1", "", 60, "")

  /** The question handleAddQuestion appends: numbered one past the current length. */
  function NewQuestion(qs: seq<Question>): (q: Question)
    ensures ParseDecimal(q.id) == Some(|qs| + 1)
    ensures q.text == "" && q.timeLimit == 60 && q.expectedAnswer == ""
  {
    ParseDecimalString(|qs| + 1);
    Question(DecimalString(|qs| + 1), "", 60, "")
  }

  function OtherQuestion(id: string): Question -> bool {
    (q: Question) => q.id != id
  }

  /** The questions left after deleting `id`: every question with that id goes. */
  function WithoutQuestion(qs: seq<Question>, id: string): (r: seq<Question>)
    ensures forall q :: q in r ==> q in qs && q.id != id
  {
    Filter(qs, OtherQuestion(id))
  }

  /** Deleting keeps exactly the questions with another id, in their order. */
  lemma WithoutQuestionKeepsOthers(qs: seq<Question>, id: string)
    ensures var idx := KeptIndices(qs, OtherQuestion(id));
            && SubsequenceAt(WithoutQuestion(qs, id), qs, idx)
            && forall i :: 0 <= i < |qs| ==> (i in idx <==> qs[i].id != id)
  {
    FilterIsSubsequence(qs, OtherQuestion(id));
  }

  /** The questions after one field of the questions with `id` was edited. */
  function EditedQuestions(qs: seq<Question>, id: string, edit: QuestionEdit): (r: seq<Question>)
    ensures |r| == |qs|
    ensures forall i :: 0 <= i < |qs| ==> r[i].id == qs[i].id
  {
    seq(|qs|, i requires 0 <= i < |qs| => if qs[i].id == id then ApplyEdit(qs[i], edit) else qs[i])
  }

  /** An edit changes exactly the named field of the questions with that id. */
  lemma EditChangesOneField(qs: seq<Question>, id: string, edit: QuestionEdit, i: int)
    requires 0 <= i < |qs|
    ensures var q, r := qs[i], EditedQuestions(qs, id, edit)[i];
            && (q.id != id ==> r == q)
            && (q.id == id ==>
                  && r.text == (if edit.EditText? then edit.text else q.text)
                  && r.timeLimit == (if edit.EditTimeLimit? then edit.seconds else q.timeLimit)
                  && r.expectedAnswer == (if edit.EditExpectedAnswer? then edit.answer else q.expectedAnswer))
  {
  }

  ghost predicate IdsDistinct(qs: seq<Question>) {
    forall i, j :: 0 <= i < j < |qs| ==> qs[i].id != qs[j].id
  }

  /** With distinct ids, deleting removes at most one question. */
  lemma {:induction false} DistinctDeleteRemovesAtMostOne(qs: seq<Question>, id: string)
    requires IdsDistinct(qs)
    ensures |WithoutQuestion(qs, id)| >= |qs| - 1
    ensures IdsDistinct(WithoutQuestion(qs, id))
  {
    var keep := OtherQuestion(id);
    FilterIsSubsequence(qs, keep);
    var r, idx := WithoutQuestion(qs, id), KeptIndices(qs, keep);
    forall i, j | 0 <= i < j < |r| ensures r[i].id != r[j].id {
      assert r[i] == qs[idx[i]] && r[j] == qs[idx[j]] && idx[i] < idx[j];
    }
    if qs != [] {
      var init, last := qs[..|qs| - 1], qs[|qs| - 1];
      assert IdsDistinct(init) by {
        forall i, j | 0 <= i < j < |init| ensures init[i].id != init[j].id {
          assert init[i] == qs[i] && init[j] == qs[j];
        }
      }
      if last.id == id {
        FilterAll(init, keep);
      } else {
        DistinctDeleteRemovesAtMostOne(init, id);
      }
    }
  }

  /**
   * The keep-at-least-one guard protects the list only while ids are
   * distinct: then a delete on a list of two or more leaves at least one.
   */
  lemma DeleteKeepsOneIfDistinct(qs: seq<Question>, id: string)
    requires IdsDistinct(qs) && |qs| > 1
    ensures |WithoutQuestion(qs, id)| >= 1
  {
    DistinctDeleteRemovesAtMostOne(qs, id);
  }

  /** Two questions with the same id are both removed, whatever the guard saw. */
  lemma DuplicateIdDeletesBoth(q: Question)
    ensures WithoutQuestion([q, q], q.id) == []
  {
    var keep := OtherQuestion(q.id);
    assert !keep(q);
    assert [q, q][..1] == [q];
    assert [q][..0] == [];
    assert Filter([q], keep) == Filter([], keep);
  }

  /** Deleting the first question of two with different ids leaves the second. */
  lemma DeleteFirstOfTwo(p: Question, q: Question)
    requires p.id != q.id
    ensures WithoutQuestion([p, q], p.id) == [q]
  {
    var keep := OtherQuestion(p.id);
    assert !keep(p) && keep(q);
    assert [p, q][..1] == [p];
    assert [p][..0] == [];
    assert Filter([p], keep) == Filter([], keep);
  }

  // the corrected numbering

  /** The number an id stands for, or 0 when it is not a numeral. */
  function IdNumber(id: string): nat {
    match ParseDecimal(id)
    case Some(n) => n
    case None => 0
  }

  /** The largest number among the ids. */
  function MaxIdNumber(qs: seq<Question>): (m: nat)
    ensures forall q :: q in qs ==> IdNumber(q.id) <= m
  {
    if qs == [] then 0
    else
      var m0 := MaxIdNumber(qs[..|qs| - 1]);
      var n := IdNumber(qs[|qs| - 1].id);
      assert qs == qs[..|qs| - 1] + [qs[|qs| - 1]];
      if n > m0 then n else m0
  }

  /** An id one past the largest numbered one. */
  function FreshQuestionId(qs: seq<Question>): string {
    DecimalString(MaxIdNumber(qs) + 1)
  }

  /** The fresh id differs from every id in use, whatever was deleted before. */
  lemma FreshQuestionIdUnused(qs: seq<Question>)
    ensures forall q :: q in qs ==> q.id != FreshQuestionId(qs)
  {
    var m := MaxIdNumber(qs);
    ParseDecimalString(m + 1);
    assert IdNumber(FreshQuestionId(qs)) == m + 1;
  }

  // ---------------------------------------------------------------------
  // validity

  /** isFormValid: a non-blank title, at least one skill, and no question with blank text. */
  function FormValid(title: string, skills: seq<string>, qs: seq<Question>): (valid: bool)
    ensures valid ==> title != "" && |skills| > 0
    ensures valid ==> forall i :: 0 <= i < |qs| ==> qs[i].text != ""
  {
    Trim(title) != "" && |skills| > 0 && forall q :: q in qs ==> Trim(q.text) != ""
  }

  /** The same condition in terms of white space: blank means nothing but white space. */
  lemma FormValidIff(title: string, skills: seq<string>, qs: seq<Question>)
    ensures FormValid(title, skills, qs) <==>
      && !AllWhiteSpace(title)
      && |skills| > 0
      && forall i :: 0 <= i < |qs| ==> !AllWhiteSpace(qs[i].text)
  {
    TrimEmptyIff(title);
    forall q | q in qs { TrimEmptyIff(q.text); }
  }

  /** Time limits are not checked: changing one never changes validity. */
  lemma TimeLimitNotChecked(title: string, skills: seq<string>, qs: seq<Question>, id: string, seconds: int)
    ensures FormValid(title, skills, EditedQuestions(qs, id, EditTimeLimit(seconds))) == FormValid(title, skills, qs)
  {
    var r := EditedQuestions(qs, id, EditTimeLimit(seconds));
    forall i | 0 <= i < |qs| ensures r[i].text == qs[i].text {}
    if FormValid(title, skills, qs) {
      forall q | q in r ensures Trim(q.text) != "" {
        var i :| 0 <= i < |r| && r[i] == q;
        assert qs[i] in qs;
      }
    } else if Trim(title) != "" && |skills| > 0 {
      var q :| q in qs && Trim(q.text) == "";
      var i :| 0 <= i < |qs| && qs[i] == q;
      assert r[i] in r;
    }
  }

  /** A freshly added question has blank text, so it must be filled in before the form is valid. */
  lemma NewQuestionBlocksSubmit(title: string, skills: seq<string>, qs: seq<Question>)
    ensures !FormValid(title, skills, qs + [NewQuestion(qs)])
  {
    assert NewQuestion(qs) in qs + [NewQuestion(qs)];
  }

  // ---------------------------------------------------------------------
  // the bot link

  const BotLinkPrefix := "https://t.me/your_bot?start="

  /** The link the form shows for the bot: the fixed start URL followed by a version-4 UUID drawn from 31 nibbles. */
  function BotLink(nibbles: seq<bv4>): (link: string)
    requires |nibbles| == 31
    ensures |link| == |BotLinkPrefix| + 36
    ensures link[..|BotLinkPrefix|] == BotLinkPrefix
    ensures IsV4Text(link[|BotLinkPrefix|..])
  {
    var id := GenerateUuid(nibbles);
    assert (BotLinkPrefix + id)[|BotLinkPrefix|..] == id;
    BotLinkPrefix + id
  }

  // ---------------------------------------------------------------------
  // the form state

  class VacancyForm {
    var title: string
    var skillInput: string
    var skills: seq<string>
    var questions: seq<Question>
    /** Drawn once when the form opens and never changed. */
    const botLink: string

    /**
     * The empty form: no title, no skills, one blank question numbered 1,
     * and the bot link built from the 31 random nibbles drawn on opening.
     */
    constructor (nibbles: seq<bv4>)
      requires |nibbles| == 31
      ensures title == "" && skillInput == "" && skills == []
      ensures questions == [FirstQuestion]
      ensures SkillListOk(skills) && IdsDistinct(questions)
      ensures botLink == BotLink(nibbles)
    {
      botLink := BotLink(nibbles);
      title := "";
      skillInput := "";
      skills := [];
      questions := [FirstQuestion];
    }

    method SetTitle(value: string)
      modifies this`title
      ensures title == value
    {
      title := value;
    }

    method SetSkillInput(value: string)
      modifies this`skillInput
      ensures skillInput == value
    {
      skillInput := value;
    }

    /** isFormValid on the current state. */
    function IsFormValid(): (valid: bool)
      reads this
      ensures valid ==> title != "" && |skills| > 0
      ensures valid ==> forall i :: 0 <= i < |questions| ==> questions[i].text != ""
    {
      FormValid(title, skills, questions)
    }

    /**
     * Adds the trimmed input as a skill when it is not blank and not yet
     * listed, and only then clears the input.
     */
    method HandleAddSkill()
      modifies this`skills, this`skillInput
      ensures var t := Trim(old(skillInput));
              if t != "" && t !in old(skills)
              then skills == old(skills) + [t] && skillInput == ""
              else skills == old(skills) && skillInput == old(skillInput)
      ensures SkillListOk(old(skills)) ==> SkillListOk(skills)
    {
      var t := Trim(skillInput);
      if t != "" && t !in skills {
        if SkillListOk(skills) {
          AddTrimmedSkill(skills, skillInput);
        }
        skills := skills + [t];
        skillInput := "";
      }
    }

    /** Removes the skill; the others stay, in order. */
    method HandleDeleteSkill(skill: string)
      modifies this`skills
      ensures skills == WithoutSkill(old(skills), skill)
      ensures SkillListOk(old(skills)) ==> SkillListOk(skills)
    {
      WithoutSkillKeepsOrder(skills, skill);
      skills := WithoutSkill(skills, skill);
    }

    /** Appends one blank question numbered |questions| + 1; the others are unchanged. */
    method HandleAddQuestion()
      modifies this`questions
      ensures questions == old(questions) + [NewQuestion(old(questions))]
    {
      questions := questions + [NewQuestion(questions)];
    }

    /**
     * Does nothing while there is a single question; otherwise removes every
     * question with that id. The list stays non-empty when ids are distinct.
     */
    method HandleDeleteQuestion(id: string)
      modifies this`questions
      ensures questions == if |old(questions)| > 1 then WithoutQuestion(old(questions), id) else old(questions)
      ensures IdsDistinct(old(questions)) ==> IdsDistinct(questions)
      ensures IdsDistinct(old(questions)) && |old(questions)| >= 1 ==> |questions| >= 1
    {
      if |questions| > 1 {
        if IdsDistinct(questions) {
          DistinctDeleteRemovesAtMostOne(questions, id);
        }
        questions := WithoutQuestion(questions, id);
      }
    }

    /** Changes one field of the questions with that id; length, order and ids stay. */
    method HandleQuestionChange(id: string, edit: QuestionEdit)
      modifies this`questions
      ensures questions == EditedQuestions(old(questions), id, edit)
      ensures IdsDistinct(old(questions)) ==> IdsDistinct(questions)
    {
      questions := EditedQuestions(questions, id, edit);
    }

    /**
     * handleAddQuestion with the id one past the largest numbered id. Ids
     * then stay distinct under every handler, and with them the guarantee
     * that a delete never empties the list.
     */
    method HandleAddQuestionFreshId()
      modifies this`questions
      ensures questions == old(questions) + [Question(FreshQuestionId(old(questions)), "", 60, "")]
      ensures IdsDistinct(old(questions)) ==> IdsDistinct(questions)
    {
      var q := Question(FreshQuestionId(questions), "", 60, "");
      FreshQuestionIdUnused(questions);
      questions := questions + [q];
      assert forall i :: 0 <= i < |questions| - 1 ==> questions[i] in old(questions);
    }
  }

  /**
   * The question lists the scenario below passes through: the second
   * question added is numbered 2 again, and deleting 2 then removes both.
   */
  lemma ReusedIdQuestions()
    ensures NewQuestion([FirstQuestion]).id == "2"
    ensures WithoutQuestion([FirstQuestion, NewQuestion([FirstQuestion])], "1") == [NewQuestion([FirstQuestion])]
    ensures NewQuestion([NewQuestion([FirstQuestion])]) == NewQuestion([FirstQuestion])
    ensures WithoutQuestion([NewQuestion([FirstQuestion]), NewQuestion([FirstQuestion])], "2") == []
  {
    var q2 := NewQuestion([FirstQuestion]);
    assert DecimalString(2) == "2";
    DeleteFirstOfTwo(FirstQuestion, q2);
    DuplicateIdDeletesBoth(q2);
  }

  /** A new form after typing a title and adding one skill. */
  method FilledForm(title: string, skill: string, nibbles: seq<bv4>) returns (form: VacancyForm)
    requires Trim(skill) != "" && |nibbles| == 31
    ensures fresh(form)
    ensures form.title == title && form.skills == [Trim(skill)] && form.questions == [FirstQuestion]
  {
    form := new VacancyForm(nibbles);
    form.SetTitle(title);
    form.SetSkillInput(skill);
    form.HandleAddSkill();
  }

  /** Add, delete 1, add, delete 2 on the opening question list. */
  method AddDeleteTwice(form: VacancyForm)
    requires form.questions == [FirstQuestion]
    modifies form`questions
    ensures form.questions == []
  {
    ReusedIdQuestions();
    var q2 := NewQuestion([FirstQuestion]);
    form.HandleAddQuestion();
    assert form.questions == [FirstQuestion, q2];
    form.HandleDeleteQuestion("1");
    assert form.questions == [q2];
    form.HandleAddQuestion();
    assert form.questions == [q2, q2];
    form.HandleDeleteQuestion("2");
  }

  /**
   * Add, delete, add, delete on a fresh form: the second question added
   * gets the id "2" that is still in use, and deleting it removes both
   * questions. Whatever non-blank title and skill were typed, the form is
   * then left without questions and still passes isFormValid.
   */
  method ReusedIdEmptiesQuestions(title: string, skill: string, nibbles: seq<bv4>) returns (remaining: nat, valid: bool)
    requires Trim(title) != "" && Trim(skill) != "" && |nibbles| == 31
    ensures remaining == 0 && valid
  {
    var form := FilledForm(title, skill, nibbles);
    AddDeleteTwice(form);
    remaining := |form.questions|;
    valid := form.IsFormValid();
  }
}
