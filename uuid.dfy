/**
 * The link the vacancy form shows for its bot: a random version-4 UUID
 * written into the usual 8-4-4-4-12 template.
 */
module Uuid {

  /** Number.prototype.toString(16) of a value below 16. */
  function HexDigit(v: bv4): (c: char)
    ensures IsLowerHex(c)
  {
    "0123456789abcdef"[v as int]
  }

  predicate IsLowerHex(c: char) {
    '0' <= c <= '9' || 'a' <= c <= 'f'
  }

  /** The value the callback prints for a `y`: the two low bits of the random nibble, with the top bit set. */
  function VariantNibble(r: bv4): (v: bv4)
    ensures 8 <= v as int <= 11
    ensures v & 0x3 == r & 0x3
  {
    (r & 0x3) | 0x8
  }

  /** How many `x` and `y` placeholders a template has: one random nibble is drawn for each. */
  function Placeholders(t: string): (n: nat)
    ensures n <= |t|
  {
    if t == [] then 0 else (if t[0] == 'x' || t[0] == 'y' then 1 else 0) + Placeholders(t[1..])
  }

  /** A template draws no nibble exactly when it has no `x` and no `y`. */
  lemma {:induction false} PlaceholdersNone(t: string)
    ensures Placeholders(t) == 0 <==> forall i :: 0 <= i < |t| ==> t[i] != 'x' && t[i] != 'y'
  {
    if t != [] {
      PlaceholdersNone(t[1..]);
      assert forall i :: 1 <= i < |t| ==> t[i] == t[1..][i - 1];
    }
  }

  lemma {:induction false} PlaceholdersAppend(a: string, b: string)
    ensures Placeholders(a + b) == Placeholders(a) + Placeholders(b)
  {
    if a != [] {
      PlaceholdersAppend(a[1..], b);
      assert (a + b)[1..] == a[1..] + b;
    } else {
      assert a + b == b;
    }
  }

  /**
   * String.prototype.replace(/[xy]/g, callback): each placeholder, from left
   * to right, is replaced by the hex digit of the next random nibble (for
   * `y`, of its variant form); every other character is kept.
   */
  function FillTemplate(t: string, nibbles: seq<bv4>): (r: string)
    requires |nibbles| == Placeholders(t)
    ensures |r| == |t|
  {
    if t == [] then []
    else if t[0] == 'x' then [HexDigit(nibbles[0])] + FillTemplate(t[1..], nibbles[1..])
    else if t[0] == 'y' then [HexDigit(VariantNibble(nibbles[0]))] + FillTemplate(t[1..], nibbles[1..])
    else [t[0]] + FillTemplate(t[1..], nibbles)
  }

  /** Position `i` of the filled template: a placeholder takes the nibble numbered by the placeholders before it. */
  lemma {:induction false} FillTemplateAt(t: string, nibbles: seq<bv4>, i: nat)
    requires |nibbles| == Placeholders(t)
    requires i < |t|
    ensures t[i] == 'x' || t[i] == 'y' ==> Placeholders(t[..i]) < |nibbles|
    ensures var r := FillTemplate(t, nibbles);
            && (t[i] == 'x' ==> r[i] == HexDigit(nibbles[Placeholders(t[..i])]))
            && (t[i] == 'y' ==> r[i] == HexDigit(VariantNibble(nibbles[Placeholders(t[..i])])))
            && (t[i] != 'x' && t[i] != 'y' ==> r[i] == t[i])
  {
    var head := if t[0] == 'x' || t[0] == 'y' then 1 else 0;
    assert Placeholders(t) == head + Placeholders(t[1..]);
    var rest := FillTemplate(t[1..], nibbles[head..]);
    var first := if t[0] == 'x' then HexDigit(nibbles[0])
                 else if t[0] == 'y' then HexDigit(VariantNibble(nibbles[0]))
                 else t[0];
    assert FillTemplate(t, nibbles) == [first] + rest;
    if i > 0 {
      FillTemplateAt(t[1..], nibbles[head..], i - 1);
      assert t[1..][..i - 1] == t[1..i];
      assert t[..i] == [t[0]] + t[1..i];
      PlaceholdersAppend([t[0]], t[1..i]);
      assert Placeholders([t[0]]) == head;
    } else {
      assert t[..0] == [];
    }
  }

  /** The template generateUUID fills. */
  const UuidTemplate := "xxxxxxxx-xxxx-4xxx-yxxx-xxxxxxxxxxxx"

  /** The template in its five groups, each with the dash that precedes it. */
  lemma UuidTemplateGroups()
    ensures UuidTemplate == "xxxxxxxx" + "-xxxx" + "-4xxx" + "-yxxx" + "-xxxxxxxxxxxx"
  {
  }

  lemma GroupPlaceholders()
    ensures Placeholders("xxxxxxxx") == 8 && Placeholders("-xxxx") == 4 && Placeholders("-4xxx") == 3
    ensures Placeholders("-yxxx") == 4 && Placeholders("-xxxxxxxxxxxx") == 12
  {
  }

  lemma PlaceholdersAppend5(a: string, b: string, c: string, d: string, e: string)
    ensures Placeholders(a + b + c + d + e)
         == Placeholders(a) + Placeholders(b) + Placeholders(c) + Placeholders(d) + Placeholders(e)
  {
    PlaceholdersAppend(a, b);
    PlaceholdersAppend(a + b, c);
    PlaceholdersAppend(a + b + c, d);
    PlaceholdersAppend(a + b + c + d, e);
  }

  /** generateUUID draws 31 random nibbles. */
  lemma UuidTemplatePlaceholders()
    ensures Placeholders(UuidTemplate) == 31
  {
    UuidTemplateGroups();
    GroupPlaceholders();
    PlaceholdersAppend5("xxxxxxxx", "-xxxx", "-4xxx", "-yxxx", "-xxxxxxxxxxxx");
  }

  /**
   * The textual layout of a version-4 UUID (RFC 4122, sections 3, 4.1.1,
   * 4.1.3 and 4.4): 36 characters in groups of 8-4-4-4-12 hex digits, the
   * version digit 4 opening the third group and one of 8, 9, a, b (the
   * variant bits 10) opening the fourth.
   */
  ghost predicate IsV4Text(s: string) {
    && |s| == 36
    && s[8] == '-' && s[13] == '-' && s[18] == '-' && s[23] == '-'
    && s[14] == '4'
    && s[19] in {'8', '9', 'a', 'b'}
    && forall i :: 0 <= i < 36 && i !in {8, 13, 14, 18, 19, 23} ==> IsLowerHex(s[i])
  }

  /** What each template character becomes: a hex digit, a variant digit, or itself. */
  lemma FillTemplateShape(t: string, nibbles: seq<bv4>, i: nat)
    requires |nibbles| == Placeholders(t)
    requires i < |t|
    ensures t[i] == 'x' ==> IsLowerHex(FillTemplate(t, nibbles)[i])
    ensures t[i] == 'y' ==> FillTemplate(t, nibbles)[i] in {'8', '9', 'a', 'b'}
    ensures t[i] != 'x' && t[i] != 'y' ==> FillTemplate(t, nibbles)[i] == t[i]
  {
    FillTemplateAt(t, nibbles, i);
    if t[i] == 'y' {
      var v := nibbles[Placeholders(t[..i])];
      assert VariantNibble(v) in {8, 9, 10, 11} by {
        assert v & 3 in {0, 1, 2, 3};
      }
    }
  }

  /** The positions of the template that are not random hex digits. */
  lemma UuidTemplateFixed(i: nat)
    requires i < 36
    ensures |UuidTemplate| == 36
    ensures i in {8, 13, 18, 23} ==> UuidTemplate[i] == '-'
    ensures i == 14 ==> UuidTemplate[i] == '4'
    ensures i == 19 ==> UuidTemplate[i] == 'y'
    ensures i !in {8, 13, 14, 18, 19, 23} ==> UuidTemplate[i] == 'x'
  {
  }

  /** generateUUID with the 31 values Math.random() * 16 | 0 drew, in order. */
  function GenerateUuid(nibbles: seq<bv4>): (r: string)
    requires |nibbles| == 31
    ensures IsV4Text(r)
  {
    UuidTemplatePlaceholders();
    var r := FillTemplate(UuidTemplate, nibbles);
    forall i | 0 <= i < 36
      ensures i in {8, 13, 18, 23} ==> r[i] == '-'
      ensures i == 14 ==> r[i] == '4'
      ensures i == 19 ==> r[i] in {'8', '9', 'a', 'b'}
      ensures i !in {8, 13, 14, 18, 19, 23} ==> IsLowerHex(r[i])
    {
      UuidTemplateFixed(i);
      FillTemplateShape(UuidTemplate, nibbles, i);
    }
    r
  }
}
