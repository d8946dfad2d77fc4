/** The pjlib calls sippak relies on, as functions over strings, and the C integer
    conversions its assignments perform.  pjlib itself is not part of this model: each
    function here is the behaviour sippak's code and unit tests assume of the call. */
module PjLib {

  datatype Option<+T> = None | Some(value: T)

  type uint16 = x: int | 0 <= x < 0x1_0000

  /** Assignment of a `long` to a 32-bit `int`. */
  function ToInt32(v: int): int {
    var m := v % 0x1_0000_0000;
    if m < 0x8000_0000 then m else m - 0x1_0000_0000
  }

  /** Assignment of an integer to a `pj_uint16_t` or an `unsigned short`. */
  function ToUint16(v: int): uint16 {
    v % 0x1_0000
  }

  function Lower(c: char): char {
    if 'A' <= c <= 'Z' then (c as int + 32) as char else c
  }

  function LowerCase(s: string): (r: string)
    ensures |r| == |s|
  {
    if s == "" then "" else [Lower(s[0])] + LowerCase(s[1..])
  }

  lemma {:induction false} LowerCaseAt(s: string, i: nat)
    requires i < |s|
    ensures LowerCase(s)[i] == Lower(s[i])
  {
    if i > 0 {
      LowerCaseAt(s[1..], i - 1);
    }
  }

  /** `pj_strnicmp2(s, kw, |kw|) == 0` and `pj_ansi_strnicmp(s, kw, |kw|) == 0`. */
  predicate HasPrefix(s: string, kw: string) {
    |kw| <= |s| && LowerCase(s[..|kw|]) == LowerCase(kw)
  }

  lemma PrefixAt(s: string, kw: string, i: nat)
    requires HasPrefix(s, kw) && i < |kw|
    ensures Lower(s[i]) == Lower(kw[i])
  {
    LowerCaseAt(s[..|kw|], i);
    LowerCaseAt(kw, i);
  }

  /** The character is the small letter, digit or sign `k`, or the capital of the letter. */
  predicate SameLetter(c: char, k: char) {
    c == k || ('a' <= k <= 'z' && c as int + 32 == k as int)
  }

  /** `s` starts with `word`, written with small letters, capitals or both. */
  predicate Spells(s: string, word: string) {
    |word| <= |s| && forall i | 0 <= i < |word| :: SameLetter(s[i], word[i])
  }

  predicate NoCapital(s: string) {
    forall i | 0 <= i < |s| :: !('A' <= s[i] <= 'Z')
  }

  /** Comparing a prefix ignores the case of letters, and nothing else. */
  lemma CaseIgnored(s: string, word: string)
    requires NoCapital(word)
    ensures HasPrefix(s, word) <==> Spells(s, word)
  {
    if HasPrefix(s, word) {
      forall i | 0 <= i < |word| ensures SameLetter(s[i], word[i]) {
        PrefixAt(s, word, i);
      }
    }
    if Spells(s, word) {
      var start := s[..|word|];
      forall i | 0 <= i < |word| ensures LowerCase(start)[i] == LowerCase(word)[i] {
        assert SameLetter(s[i], word[i]);
        LowerCaseAt(start, i);
        LowerCaseAt(word, i);
      }
      assert LowerCase(start) == LowerCase(word);
    }
  }

  /** `pj_isspace` in the C locale. */
  predicate IsSpace(c: char) {
    c == ' ' || 9 <= c as int <= 13
  }

  function TrimLeft(s: string): (r: string)
    ensures r != "" ==> !IsSpace(r[0])
  {
    if s != "" && IsSpace(s[0]) then TrimLeft(s[1..]) else s
  }

  function TrimRight(s: string): (r: string)
    ensures r <= s
    ensures r != "" ==> !IsSpace(r[|r| - 1])
  {
    if s != "" && IsSpace(s[|s| - 1]) then TrimRight(s[..|s| - 1]) else s
  }

  /** `pj_strtrim`. */
  function Trim(s: string): string {
    TrimRight(TrimLeft(s))
  }

  predicate IsDigit(c: char) {
    '0' <= c <= '9'
  }

  /** The digits of `s` up to the first other character, read after the value `acc`. */
  function DigitsFrom(s: string, acc: nat): nat {
    if s != "" && IsDigit(s[0]) then DigitsFrom(s[1..], 10 * acc + (s[0] as int - '0' as int)) else acc
  }

  /** `pj_strtol`: a sign, if any, and the value of the decimal digits that follow, 0 when
      there are none. */
  function StrToL(s: string): int {
    if s != "" && s[0] == '-' then -(DigitsFrom(s[1..], 0) as int)
    else if s != "" && s[0] == '+' then DigitsFrom(s[1..], 0)
    else DigitsFrom(s, 0)
  }

  /** The first position at or after `i` that does not hold `d`. */
  function SkipDelim(s: string, d: char, i: nat): (r: nat)
    requires i <= |s|
    ensures i <= r <= |s|
    ensures r < |s| ==> s[r] != d
    decreases |s| - i
  {
    if i < |s| && s[i] == d then SkipDelim(s, d, i + 1) else i
  }

  /** The first position at or after `i` that holds `d`, or `|s|`. */
  function Find(s: string, d: char, i: nat): (r: nat)
    requires i <= |s|
    ensures i <= r <= |s|
    decreases |s| - i
  {
    if i < |s| && s[i] != d then Find(s, d, i + 1) else i
  }

  lemma {:induction false} FindSpec(s: string, d: char, i: nat)
    requires i <= |s|
    ensures d !in s[i..Find(s, d, i)]
    ensures Find(s, d, i) < |s| ==> s[Find(s, d, i)] == d
    decreases |s| - i
  {
    if i < |s| && s[i] != d {
      FindSpec(s, d, i + 1);
      assert s[i..Find(s, d, i)] == [s[i]] + s[i + 1..Find(s, d, i)];
    }
  }

  lemma {:induction false} FindIs(s: string, d: char, i: nat, r: nat)
    requires i <= r <= |s| && d !in s[i..r]
    requires r < |s| ==> s[r] == d
    ensures Find(s, d, i) == r
    decreases r - i
  {
    if i < r {
      assert s[i] == s[i..r][0];
      assert s[i..r][1..] == s[i + 1..r];
      FindIs(s, d, i + 1, r);
    }
  }

  /** `pj_strtok(s, d, &tok, start)`: the index it returns and the token it leaves. */
  function StrTok(s: string, d: char, start: nat): (r: (nat, string))
    requires start <= |s|
    ensures start <= r.0 && r.0 + |r.1| <= |s|
    ensures r.1 == "" <==> r.0 == |s|
  {
    var i := SkipDelim(s, d, start);
    (i, s[i..Find(s, d, i)])
  }
}
