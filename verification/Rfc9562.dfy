/**
 The textual form of section 4 of RFC 9562: 32 hexadecimal digits in five groups,
 printed in lower case and read in either case. It is a lawful pair of casts, and it
 shows two spellings of one id.
 */
module Rfc9562 {
  import opened Wrappers
  import opened Uuids

  function HexChar(h: Hex): char {
    if h < 10 then (h as int + 48) as char else (h as int + 87) as char
  }

  function HexValue(c: char): Option<Hex> {
    if '0' <= c <= '9' then Some((c as int - 48) as Hex)
    else if 'a' <= c <= 'f' then Some((c as int - 87) as Hex)
    else if 'A' <= c <= 'F' then Some((c as int - 55) as Hex)
    else None
  }

  predicate IsHyphen(i: nat) {
    i == 8 || i == 13 || i == 18 || i == 23
  }

  function DigitAt(i: nat): (k: nat)
    requires i < 36 && !IsHyphen(i)
    ensures k < 32
  {
    if i < 8 then i else if i < 13 then i - 1 else if i < 18 then i - 2 else if i < 23 then i - 3 else i - 4
  }

  function CharAt(k: nat): (i: nat)
    requires k < 32
    ensures i < 36 && !IsHyphen(i) && DigitAt(i) == k
  {
    if k < 8 then k else if k < 12 then k + 1 else if k < 16 then k + 2 else if k < 20 then k + 3 else k + 4
  }

  function Text(u: Uuid): (s: string)
    ensures |s| == 36
  {
    seq(36, i requires 0 <= i < 36 => if IsHyphen(i) then '-' else HexChar(u.digits[DigitAt(i)]))
  }

  predicate WellFormed(s: string) {
    |s| == 36 && forall i: nat :: i < 36 ==> if IsHyphen(i) then s[i] == '-' else HexValue(s[i]).Some?
  }

  function Cast(s: string): Option<Uuid> {
    if WellFormed(s) then Some(Uuid(seq(32, k requires 0 <= k < 32 => HexValue(s[CharAt(k)]).value))) else None
  }

  const RFC := UuidText(s => Cast(s).Some?, s => Cast(s), u => Text(u))

  lemma CastOfText(u: Uuid)
    ensures Cast(Text(u)) == Some(u)
  {
    var s := Text(u);
    assert WellFormed(s);
    forall k: nat | k < 32
      ensures HexValue(s[CharAt(k)]).value == u.digits[k]
    {
    }
    assert Cast(s).value.digits == u.digits;
  }

  /** The printed form: hyphens after 8, 12, 16 and 20 digits, the digits in order and in lower case. */
  lemma TextForm(u: Uuid)
    ensures |Text(u)| == 36 && Text(u)[8] == Text(u)[13] == Text(u)[18] == Text(u)[23] == '-'
    ensures forall k :: 0 <= k < 32 ==>
              var hyphens := if k < 8 then 0 else if k < 12 then 1 else if k < 16 then 2 else if k < 20 then 3 else 4;
              Text(u)[k + hyphens] == "0123456789abcdef"[u.digits[k]]
  {
    var s := Text(u);
    forall k | 0 <= k < 32
      ensures s[CharAt(k)] == "0123456789abcdef"[u.digits[k]]
    {
    }
  }

  lemma RfcIsLawful()
    ensures Lawful(RFC)
  {
    forall u: Uuid
      ensures RFC.valid(RFC.text(u)) && RFC.cast(RFC.text(u)) == Some(u)
    {
      CastOfText(u);
    }
  }

  // ----- A text that one parser takes and the other refuses ----------------------

  const URN := "urn:uuid:"

  function Urn(u: Uuid): string {
    URN + Text(u)
  }

  /** As RFC, with a uuid.Parse that also takes the URN form of section 4. */
  const LENIENT := UuidText(s => Cast(s).Some? || (URN <= s && Cast(s[|URN|..]).Some?), s => Cast(s), u => Text(u))

  lemma LenientIsLawful()
    ensures Lawful(LENIENT)
  {
    forall u: Uuid
      ensures LENIENT.valid(LENIENT.text(u)) && LENIENT.cast(LENIENT.text(u)) == Some(u)
    {
      CastOfText(u);
    }
  }

  lemma UrnIsNoCast(u: Uuid)
    ensures LENIENT.valid(Urn(u)) && LENIENT.cast(Urn(u)) == None
  {
    CastOfText(u);
    assert Urn(u)[|URN|..] == Text(u);
    assert |Urn(u)| == 45;
  }

  // ----- Two spellings of one id ---------------------------------------------------

  function UpperChar(c: char): char {
    if 'a' <= c <= 'f' then (c as int - 32) as char else c
  }

  function Upper(s: string): string {
    seq(|s|, i requires 0 <= i < |s| => UpperChar(s[i]))
  }

  /** The upper-case spelling reads as the same id; it is another text as soon as a digit is a letter. */
  lemma UpperSpellsTheSameId(u: Uuid)
    ensures Cast(Upper(Text(u))) == Some(u)
    ensures (exists k :: 0 <= k < 32 && u.digits[k] >= 10) ==> Upper(Text(u)) != Text(u)
  {
    var s := Text(u);
    var t := Upper(s);
    CastOfText(u);
    forall i: nat | i < 36
      ensures if IsHyphen(i) then t[i] == '-' else HexValue(t[i]) == HexValue(s[i]) && HexValue(s[i]).Some?
    {
    }
    assert Cast(t).value.digits == Cast(s).value.digits;
    if k :| 0 <= k < 32 && u.digits[k] >= 10 {
      assert s[CharAt(k)] == HexChar(u.digits[k]);
      assert t[CharAt(k)] != s[CharAt(k)];
    }
  }
}
