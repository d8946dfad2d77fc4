/** The list syntax that the nameserver, codec and MWI options share, and the meaning of
    the `pj_strtok` loop that reads it. */
module Lists {
  import opened PjLib

  /** Cut `s` at every `d`; the pieces may be empty. */
  function Split(s: string, d: char): (r: seq<string>)
    ensures |r| > 0
  {
    if s == "" then [""]
    else
      var rest := Split(s[1..], d);
      if s[0] == d then [""] + rest else [[s[0]] + rest[0]] + rest[1..]
  }

  function NonEmpty(fs: seq<string>): seq<string> {
    if fs == [] then []
    else if fs[0] == "" then NonEmpty(fs[1..])
    else [fs[0]] + NonEmpty(fs[1..])
  }

  /** The non-empty pieces of `s` between occurrences of `d`, left to right. */
  function Fields(s: string, d: char): seq<string> {
    NonEmpty(Split(s, d))
  }

  function Join(fs: seq<string>, d: char): string {
    if fs == [] then "" else if |fs| == 1 then fs[0] else fs[0] + [d] + Join(fs[1..], d)
  }

  predicate IsField(f: string, d: char) {
    f != "" && d !in f
  }

  function Take<T>(s: seq<T>, n: nat): seq<T> {
    if |s| <= n then s else s[..n]
  }

  lemma {:induction false} SplitRun(run: string, rest: string, d: char)
    requires d !in run
    ensures Split(run + rest, d) == [run + Split(rest, d)[0]] + Split(rest, d)[1..]
  {
    if run == "" {
      assert run + rest == rest && run + Split(rest, d)[0] == Split(rest, d)[0];
      assert Split(rest, d) == [Split(rest, d)[0]] + Split(rest, d)[1..];
    } else {
      assert (run + rest)[1..] == run[1..] + rest;
      SplitRun(run[1..], rest, d);
      assert [run[0]] + (run[1..] + Split(rest, d)[0]) == run + Split(rest, d)[0];
    }
  }

  /** There is one piece more than there are delimiters. */
  lemma {:induction false} PieceCount(s: string, d: char)
    ensures |Split(s, d)| == multiset(s)[d] + 1
  {
    if s != "" {
      PieceCount(s[1..], d);
      assert s == [s[0]] + s[1..];
    }
  }

  lemma NoFields(d: char)
    ensures Fields("", d) == []
  {
    assert NonEmpty([""][1..]) == [];
  }

  /** A field followed by the end of the text or by a delimiter is the first field. */
  lemma FirstField(f: string, rest: string, d: char)
    requires IsField(f, d)
    requires rest == "" || rest[0] == d
    ensures Fields(f + rest, d) == [f] + Fields(rest, d)
  {
    SplitRun(f, rest, d);
    assert Split(rest, d)[0] == "";
    assert f + "" == f;
  }

  lemma {:induction false} LeadingDelims(s: string, d: char, start: nat)
    requires start <= |s|
    ensures Fields(s[start..], d) == Fields(s[SkipDelim(s, d, start)..], d)
    decreases |s| - start
  {
    if start < |s| && s[start] == d {
      assert s[start..][1..] == s[start + 1..];
      LeadingDelims(s, d, start + 1);
    }
  }

  /** The fields a `pj_strtok` loop still has to visit when its index and token are `at`. */
  function Pending(s: string, d: char, at: (nat, string)): seq<string>
    requires at.0 + |at.1| <= |s|
  {
    if at.0 == |s| then [] else [at.1] + Fields(s[at.0 + |at.1|..], d)
  }

  /** A `pj_strtok` call at `start` finds the next field of the text from there on, so the
      loop visits every field once, left to right. */
  lemma NextField(s: string, d: char, start: nat)
    requires start <= |s|
    ensures Pending(s, d, StrTok(s, d, start)) == Fields(s[start..], d)
  {
    var (i, tok) := StrTok(s, d, start);
    LeadingDelims(s, d, start);
    FindSpec(s, d, i);
    if i < |s| {
      assert s[i..] == tok + s[i + |tok|..];
      FirstField(tok, s[i + |tok|..], d);
    } else {
      assert s[i..] == "";
      NoFields(d);
    }
  }

  /** The first call of the loop. */
  lemma FirstCall(s: string, d: char)
    ensures Fields(s, d) == Pending(s, d, StrTok(s, d, 0))
  {
    NextField(s, d, 0);
    assert s[0..] == s;
  }

  /** The call at the end of a turn: the token moves from the pending fields to the seen ones. */
  lemma NextCall(s: string, d: char, seen: seq<string>, at: (nat, string))
    requires at.0 + |at.1| <= |s| && at.0 != |s|
    requires Fields(s, d) == seen + Pending(s, d, at)
    ensures Fields(s, d) == (seen + [at.1]) + Pending(s, d, StrTok(s, d, at.0 + |at.1|))
  {
    NextField(s, d, at.0 + |at.1|);
  }

  /** Writing fields with single delimiters and reading them back is the identity. */
  lemma {:induction false} FieldsOfJoin(fs: seq<string>, d: char)
    requires forall f | f in fs :: IsField(f, d)
    ensures Fields(Join(fs, d), d) == fs
  {
    if |fs| == 1 {
      FirstField(fs[0], "", d);
      NoFields(d);
      assert fs[0] + "" == fs[0];
    } else if |fs| > 1 {
      var rest := [d] + Join(fs[1..], d);
      assert Join(fs, d) == fs[0] + rest;
      FirstField(fs[0], rest, d);
      assert rest[1..] == Join(fs[1..], d);
      FieldsOfJoin(fs[1..], d);
      assert Fields(rest, d) == NonEmpty(Split(rest, d)[1..]) == fs[1..];
    } else {
      NoFields(d);
    }
  }

  function Concat(fs: seq<string>): string {
    if fs == [] then "" else fs[0] + Concat(fs[1..])
  }

  function Without(s: string, d: char): string {
    if s == "" then "" else (if s[0] == d then "" else [s[0]]) + Without(s[1..], d)
  }

  /** Fields are non-empty and delimiter-free, and together they are the text without its
      delimiters: nothing is lost, repeated or reordered. */
  lemma {:induction false} FieldsCover(s: string, d: char)
    ensures forall f | f in Fields(s, d) :: IsField(f, d)
    ensures Concat(Fields(s, d)) == Without(s, d)
  {
    PiecesCover(s, d);
    DropEmpty(Split(s, d));
  }

  lemma {:induction false} PiecesCover(s: string, d: char)
    ensures forall f | f in Split(s, d) :: d !in f
    ensures Concat(Split(s, d)) == Without(s, d)
  {
    if s != "" {
      PiecesCover(s[1..], d);
    }
  }

  lemma {:induction false} DropEmpty(fs: seq<string>)
    ensures forall f | f in NonEmpty(fs) :: f in fs && f != ""
    ensures Concat(NonEmpty(fs)) == Concat(fs)
  {
    if fs != [] {
      DropEmpty(fs[1..]);
    }
  }
}
