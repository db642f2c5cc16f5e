/** The string operations the stores rely on: str.strip() and decimal rendering. */
module Text {
  import opened Common

  /** str.isspace() of one character. */
  predicate IsSpace(c: char) {
    || '\t' <= c <= '\r' || '\U{1c}' <= c <= ' ' || c == '\U{85}' || c == '\U{a0}' || c == '\U{1680}'
    || '\U{2000}' <= c <= '\U{200a}' || c == '\U{2028}' || c == '\U{2029}' || c == '\U{202f}' || c == '\U{205f}' || c == '\U{3000}'
  }

  function StripLeft(s: string): (r: string)
    ensures r != "" ==> !IsSpace(r[0])
    ensures |r| <= |s| && s == s[..|s| - |r|] + r
    ensures s != "" && !IsSpace(s[0]) ==> r == s
  {
    if s != "" && IsSpace(s[0]) then StripLeft(s[1..]) else s
  }

  function StripRight(s: string): (r: string)
    ensures r != "" ==> !IsSpace(r[|r| - 1])
    ensures |r| <= |s| && r == s[..|r|]
    ensures s != "" && !IsSpace(s[|s| - 1]) ==> r == s
  {
    if s != "" && IsSpace(s[|s| - 1]) then StripRight(s[..|s| - 1]) else s
  }

  /** A string that str.strip() leaves alone. */
  predicate Trimmed(s: string) {
    s == "" || (!IsSpace(s[0]) && !IsSpace(s[|s| - 1]))
  }

  /** Python's str.strip(). */
  function Strip(s: string): (r: string)
    ensures Trimmed(r)
    ensures Trimmed(s) ==> r == s
  {
    StripRight(StripLeft(s))
  }

  lemma StripKeepsCharacters(s: string)
    ensures forall c :: c in Strip(s) ==> c in s
  {
    var left := StripLeft(s);
    assert s == s[..|s| - |left|] + left;
  }

  predicate AllSpace(s: string) {
    forall c :: c in s ==> IsSpace(c)
  }

  lemma SpaceJoins(a: string, b: string)
    requires AllSpace(a) && AllSpace(b)
    ensures AllSpace(a + b)
  {
  }

  lemma {:induction false} LeftSpaces(s: string)
    ensures forall i :: 0 <= i < |s| - |StripLeft(s)| ==> IsSpace(s[i])
    decreases |s|
  {
    if s != "" && IsSpace(s[0]) {
      var tail := s[1..];
      LeftSpaces(tail);
      assert StripLeft(s) == StripLeft(tail);
      hide IsSpace, StripLeft;
      forall i | 0 < i < |s| - |StripLeft(s)|
        ensures IsSpace(s[i])
      {
        assert s[i] == tail[i - 1];
      }
    }
  }

  lemma LeftCut(s: string) returns (before: string)
    ensures s == before + StripLeft(s) && AllSpace(before)
  {
    hide IsSpace, StripLeft;
    LeftSpaces(s);
    before := s[..|s| - |StripLeft(s)|];
  }

  lemma {:induction false} RightCut(s: string) returns (after: string)
    ensures s == StripRight(s) + after && AllSpace(after)
    decreases |s|
  {
    after := "";
    if s != "" && IsSpace(s[|s| - 1]) {
      var front, last := s[..|s| - 1], [s[|s| - 1]];
      var rest := RightCut(front);
      assert AllSpace(last) && StripRight(s) == StripRight(front);
      hide AllSpace, IsSpace, StripRight;
      SpaceJoins(rest, last);
      after := rest + last;
      assert s == front + last;
    }
  }

  /** Stripping cuts white space off both ends, and nothing else. */
  lemma StripCuts(s: string) returns (before: string, after: string)
    ensures s == before + Strip(s) + after && AllSpace(before) && AllSpace(after)
  {
    hide AllSpace, StripLeft, StripRight;
    before := LeftCut(s);
    after := RightCut(StripLeft(s));
  }

  /** What is left is empty exactly for white space. */
  lemma StripsToNothing(s: string)
    ensures Strip(s) == "" <==> AllSpace(s)
  {
    hide IsSpace;
    var before, after := StripCuts(s);
    StripKeepsCharacters(s);
    if Strip(s) != "" {
      assert Strip(s)[0] in s;
    }
  }

  predicate IsDigit(c: char) {
    '0' <= c <= '9'
  }

  function DigitChar(d: int): (c: char)
    requires 0 <= d < 10
    ensures IsDigit(c) && DigitValue(c) == d
  {
    ('0' as int + d) as char
  }

  function DigitValue(c: char): (d: int)
    requires IsDigit(c)
    ensures 0 <= d < 10
  {
    c as int - '0' as int
  }

  /** str(n) for a natural number. */
  function ShowNat(n: nat): (s: string)
    ensures s != "" && forall i :: 0 <= i < |s| ==> IsDigit(s[i])
  {
    if n < 10 then [DigitChar(n)] else ShowNat(n / 10) + [DigitChar(n % 10)]
  }

  function ShowInt(n: int): string {
    if n < 0 then "-" + ShowNat(-n) else ShowNat(n)
  }

  function ReadNat(s: string): (n: Option<int>)
    ensures n.Some? ==> n.value >= 0
  {
    if s == "" || !IsDigit(s[|s| - 1]) then None
    else if |s| == 1 then Some(DigitValue(s[0]))
    else match ReadNat(s[..|s| - 1])
      case None => None
      case Some(high) => Some(10 * high + DigitValue(s[|s| - 1]))
  }

  function ReadInt(s: string): Option<int>
  {
    if s != "" && s[0] == '-' then
      var magnitude := ReadNat(s[1..]);
      if magnitude.None? then None else Some(-magnitude.value)
    else ReadNat(s)
  }

  lemma {:induction false} ReadShowNat(n: nat)
    ensures ReadNat(ShowNat(n)) == Some(n)
  {
    if n >= 10 {
      ReadShowNat(n / 10);
      var s := ShowNat(n);
      assert s[..|s| - 1] == ShowNat(n / 10);
    }
  }

  lemma ReadShowInt(n: int)
    ensures ReadInt(ShowInt(n)) == Some(n)
  {
    hide ShowNat, ReadNat;
    if n < 0 {
      ReadShowNat(-n);
      assert ShowInt(n)[1..] == ShowNat(-n);
    } else {
      ReadShowNat(n);
      assert IsDigit(ShowNat(n)[0]);
    }
  }
}
