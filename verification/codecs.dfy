/** Codec selection for INVITE: the --codec option (src/app/media_helper.c). */
module Codecs {
  import opened PjLib
  import opened Lists

  const NUM_CODECS_AVAIL := 12

  datatype Codec =
    | Speex | Ilbc | Gsm | G711 | G722 | Ipp | G7221 | L16 | Ocamr | Silk | Opus | Bcg729 | All

  /** The numbers of the C enumeration: one bit each. */
  function Code(c: Codec): bv16 {
    match c
    case Speex => 0x1
    case Ilbc => 0x2
    case Gsm => 0x4
    case G711 => 0x8
    case G722 => 0x10
    case Ipp => 0x20
    case G7221 => 0x40
    case L16 => 0x80
    case Ocamr => 0x100
    case Silk => 0x200
    case Opus => 0x400
    case Bcg729 => 0x800
    case All => 0x1000
  }

  /** The PJMEDIA_HAS_* switches of the build. */
  datatype Build = Build(speex: bool, ilbc: bool, gsm: bool, g711: bool, g722: bool, ipp: bool, g7221: bool,
                         l16: bool, amrNb: bool, amrWb: bool, silk: bool, opus: bool, bcg729: bool)

  /** The build contains codec `c`. */
  predicate Compiled(b: Build, c: Codec) {
    match c
    case Speex => b.speex
    case Ilbc => b.ilbc
    case Gsm => b.gsm
    case G711 => b.g711
    case G722 => b.g722
    case Ipp => b.ipp
    case G7221 => b.g7221
    case L16 => b.l16
    case Ocamr => b.amrNb || b.amrWb
    case Silk => b.silk
    case Opus => b.opus
    case Bcg729 => b.bcg729
    case All => false
  }

  function Bit(on: bool, c: Codec): bv16 {
    if on then Code(c) else 0
  }

  /** The mask of the codecs in the build. */
  function Mask(b: Build): bv16 {
    Bit(b.speex, Speex) | Bit(b.ilbc, Ilbc) | Bit(b.gsm, Gsm) | Bit(b.g711, G711)
    | Bit(b.g722, G722) | Bit(b.ipp, Ipp) | Bit(b.g7221, G7221) | Bit(b.l16, L16)
    | Bit(b.amrNb || b.amrWb, Ocamr) | Bit(b.silk, Silk) | Bit(b.opus, Opus) | Bit(b.bcg729, Bcg729)
  }

  predicate SupportCodec(b: Build, codec: Codec) {
    Mask(b) & Code(codec) == Code(codec)
  }

  /** The bit test answers membership for every codec, and no for "all". */
  lemma MaskIsMembership(b: Build, codec: Codec)
    ensures SupportCodec(b, codec) <==> Compiled(b, codec)
    ensures SupportCodec(b, Ocamr) <==> b.amrNb || b.amrWb
  {
  }

  function Keyword(c: Codec): string {
    match c
    case Speex => "speex"
    case Ilbc => "ilbc"
    case Gsm => "gsm"
    case G711 => "g711"
    case G722 => "g722"
    case Ipp => "ipp"
    case G7221 => "g722.1"
    case L16 => "l16"
    case Ocamr => "amr"
    case Silk => "silk"
    case Opus => "opus"
    case Bcg729 => "bcg729"
    case All => "all"
  }

  function CodecStrParse(codec: string): Option<Codec> {
    if HasPrefix(codec, Keyword(Speex)) then Some(Speex)
    else if HasPrefix(codec, Keyword(Ilbc)) then Some(Ilbc)
    else if HasPrefix(codec, Keyword(Gsm)) then Some(Gsm)
    else if HasPrefix(codec, Keyword(G711)) then Some(G711)
    else if HasPrefix(codec, Keyword(G722)) then Some(G722)
    else if HasPrefix(codec, Keyword(Ipp)) then Some(Ipp)
    else if HasPrefix(codec, Keyword(G7221)) then Some(G7221)
    else if HasPrefix(codec, Keyword(L16)) then Some(L16)
    else if HasPrefix(codec, Keyword(Ocamr)) then Some(Ocamr)
    else if HasPrefix(codec, Keyword(Silk)) then Some(Silk)
    else if HasPrefix(codec, Keyword(Opus)) then Some(Opus)
    else if HasPrefix(codec, Keyword(Bcg729)) then Some(Bcg729)
    else if HasPrefix(codec, Keyword(All)) then Some(All)
    else None
  }

  /** The first three letters tell the codec names apart, but for g722 and g722.1. */
  lemma FirstLetters(t: string, c: Codec)
    requires HasPrefix(t, Keyword(c))
    ensures |t| >= 3
    ensures var k := (Lower(t[0]), Lower(t[1]), Lower(t[2]));
            match c
            case Speex => k == ('s', 'p', 'e')
            case Ilbc => k == ('i', 'l', 'b')
            case Gsm => k == ('g', 's', 'm')
            case G711 => k == ('g', '7', '1')
            case G722 => k == ('g', '7', '2')
            case Ipp => k == ('i', 'p', 'p')
            case G7221 => k == ('g', '7', '2')
            case L16 => k == ('l', '1', '6')
            case Ocamr => k == ('a', 'm', 'r')
            case Silk => k == ('s', 'i', 'l')
            case Opus => k == ('o', 'p', 'u')
            case Bcg729 => k == ('b', 'c', 'g')
            case All => k == ('a', 'l', 'l')
  {
    var kw := Keyword(c);
    assert |kw| >= 3;
    PrefixAt(t, kw, 0);
    PrefixAt(t, kw, 1);
    PrefixAt(t, kw, 2);
  }

  /** The only codec names that can match the same text are g722 and g722.1. */
  lemma Overlap(t: string, c: Codec, c': Codec)
    requires HasPrefix(t, Keyword(c)) && HasPrefix(t, Keyword(c')) && c != c'
    ensures (c == G722 && c' == G7221) || (c == G7221 && c' == G722)
  {
    FirstLetters(t, c);
    FirstLetters(t, c');
  }

  lemma {:induction false} LowerPrefix(s: string, s': string, n: nat)
    requires LowerCase(s) == LowerCase(s') && n <= |s|
    ensures n <= |s'| && LowerCase(s[..n]) == LowerCase(s'[..n])
  {
    assert |LowerCase(s)| == |LowerCase(s')|;
    if n > 0 {
      assert LowerCase(s[1..]) == LowerCase(s)[1..] == LowerCase(s'[1..]);
      LowerPrefix(s[1..], s'[1..], n - 1);
      assert s[..n][1..] == s[1..][..n - 1] && s'[..n][1..] == s'[1..][..n - 1];
      assert Lower(s[0]) == LowerCase(s)[0] == Lower(s'[0]);
    }
  }

  lemma Shadowed(t: string)
    requires HasPrefix(t, Keyword(G7221))
    ensures HasPrefix(t, Keyword(G722))
  {
    LowerPrefix(t[..6], "g722.1", 4);
    assert t[..6][..4] == t[..4] && "g722.1"[..4] == "g722";
  }

  lemma ParseSound(t: string)
    ensures CodecStrParse(t).Some? ==> HasPrefix(t, Keyword(CodecStrParse(t).value))
    ensures CodecStrParse(t) != Some(G7221)
  {
    hide HasPrefix, Keyword;
    if HasPrefix(t, Keyword(G7221)) {
      Shadowed(t);
    }
  }

  /** What the chain decides: the codec whose name starts the text.  Since g722 shadows
      g722.1, no text selects g722.1. */
  lemma ParseMeaning(t: string, c: Codec)
    ensures CodecStrParse(t) == Some(c) <==> HasPrefix(t, Keyword(c)) && c != G7221
  {
    hide HasPrefix, Keyword;
    ParseSound(t);
    if HasPrefix(t, Keyword(c)) && c != G7221 {
      assert CodecStrParse(t).Some?;
      if CodecStrParse(t) != Some(c) {
        Overlap(t, c, CodecStrParse(t).value);
      }
    }
  }

  /** The names, in small letters, capitals or both, and whatever follows them. */
  lemma CodecNames(t: string)
    ensures CodecStrParse(t) == Some(Speex) <==> Spells(t, "speex")
    ensures CodecStrParse(t) == Some(Ilbc) <==> Spells(t, "ilbc")
    ensures CodecStrParse(t) == Some(Gsm) <==> Spells(t, "gsm")
    ensures CodecStrParse(t) == Some(G711) <==> Spells(t, "g711")
    ensures CodecStrParse(t) == Some(G722) <==> Spells(t, "g722")
    ensures CodecStrParse(t) == Some(Ipp) <==> Spells(t, "ipp")
    ensures CodecStrParse(t) == Some(L16) <==> Spells(t, "l16")
    ensures CodecStrParse(t) == Some(Ocamr) <==> Spells(t, "amr")
    ensures CodecStrParse(t) == Some(Silk) <==> Spells(t, "silk")
    ensures CodecStrParse(t) == Some(Opus) <==> Spells(t, "opus")
    ensures CodecStrParse(t) == Some(Bcg729) <==> Spells(t, "bcg729")
    ensures CodecStrParse(t) == Some(All) <==> Spells(t, "all")
  {
    hide HasPrefix, Spells, CodecStrParse;
    forall c | c != G7221 ensures CodecStrParse(t) == Some(c) <==> Spells(t, Keyword(c)) {
      ParseMeaning(t, c);
      CaseIgnored(t, Keyword(c));
    }
  }

  /** Asking for g722.1 selects g722. */
  lemma AskingForG7221(t: string)
    requires HasPrefix(t, Keyword(G7221))
    ensures CodecStrParse(t) == Some(G722)
  {
    hide HasPrefix, Keyword;
    Shadowed(t);
    ParseMeaning(t, G722);
  }

  /** What one field of the list says. */
  datatype Word = Use(codec: Codec) | AllWord | Unknown

  function Classify(b: Build, field: string): Word {
    match CodecStrParse(field)
    case None => Unknown
    case Some(All) => AllWord
    case Some(c) => if Compiled(b, c) then Use(c) else Unknown
  }

  function Words(b: Build, fields: seq<string>): (ws: seq<Word>)
    ensures |ws| == |fields|
  {
    seq(|fields|, i requires 0 <= i < |fields| => Classify(b, fields[i]))
  }

  /** How many words at the start name codecs of the build. */
  function Leading(ws: seq<Word>): (k: nat)
    ensures k <= |ws|
    ensures forall i | 0 <= i < k :: ws[i].Use?
    ensures k < |ws| ==> !ws[k].Use?
  {
    if ws != [] && ws[0].Use? then 1 + Leading(ws[1..]) else 0
  }

  function CodecsOf(ws: seq<Word>): seq<Codec>
    requires forall i | 0 <= i < |ws| :: ws[i].Use?
  {
    seq(|ws|, i requires 0 <= i < |ws| => ws[i].codec)
  }

  /** `cs` without the elements that occurred before. */
  function FirstOccurrences(cs: seq<Codec>): seq<Codec> {
    if cs == [] then []
    else
      var (init, last) := (cs[..|cs| - 1], cs[|cs| - 1]);
      if last in init then FirstOccurrences(init) else FirstOccurrences(init) + [last]
  }

  datatype Selection = Everything | Listed(codecs: seq<Codec>) | Rejected

  /** What a codec list asks for.  The first word that names no codec of the build decides,
      when there is one: "all" asks for everything, anything else is an error. */
  function Decide(ws: seq<Word>): Selection {
    var k := Leading(ws);
    if k == |ws| then Listed(FirstOccurrences(CodecsOf(ws)))
    else if ws[k].AllWord? then Everything
    else Rejected
  }

  function Select(b: Build, codecs: string): Selection {
    Decide(Words(b, Fields(codecs, ',')))
  }

  /** A field that starts with the name of a codec of the build, g722.1 excepted. */
  predicate Names(b: Build, field: string) {
    exists c: Codec :: c != G7221 && Compiled(b, c) && HasPrefix(field, Keyword(c))
  }

  lemma ClassifyMeaning(b: Build, field: string)
    ensures Classify(b, field).Use? <==> Names(b, field)
    ensures Classify(b, field).AllWord? <==> HasPrefix(field, Keyword(All))
  {
    hide HasPrefix, Keyword, CodecStrParse;
    ParseMeaning(field, All);
    if Names(b, field) {
      var c :| c != G7221 && Compiled(b, c) && HasPrefix(field, Keyword(c));
      ParseMeaning(field, c);
    }
    if Classify(b, field).Use? {
      ParseMeaning(field, Classify(b, field).codec);
    }
  }

  /** A list is taken as codecs exactly when every field names one of the build; everything is
      asked for exactly when "all" comes before any field that does not; otherwise it is an
      error. */
  lemma SelectMeaning(b: Build, codecs: string)
    ensures var fs := Fields(codecs, ',');
            && (Select(b, codecs).Listed? <==> forall f | f in fs :: Names(b, f))
            && (Select(b, codecs) == Everything <==>
                 exists k | 0 <= k < |fs| :: HasPrefix(fs[k], Keyword(All)) && forall i | 0 <= i < k :: Names(b, fs[i]))
  {
    hide HasPrefix, Keyword, Classify, Names, Fields;
    var fs := Fields(codecs, ',');
    forall i | 0 <= i < |fs|
      ensures Words(b, fs)[i].Use? <==> Names(b, fs[i])
      ensures Words(b, fs)[i].AllWord? <==> HasPrefix(fs[i], Keyword(All))
    {
      ClassifyMeaning(b, fs[i]);
    }
    var k := Leading(Words(b, fs));
    if k < |fs| {
      assert fs[k] in fs && !Names(b, fs[k]);
    }
    forall j | 0 <= j < |fs| && HasPrefix(fs[j], Keyword(All)) && forall i | 0 <= i < j :: Names(b, fs[i])
      ensures j == k
    {
      assert !Names(b, fs[j]);
    }
  }

  predicate Distinct(cs: seq<Codec>) {
    forall i, j | 0 <= i < j < |cs| :: cs[i] != cs[j]
  }

  /** First occurrences have no repeats and keep every element. */
  lemma {:induction false} NoRepeats(cs: seq<Codec>)
    ensures Distinct(FirstOccurrences(cs))
    ensures forall c :: c in FirstOccurrences(cs) <==> c in cs
  {
    if cs != [] {
      var (init, last) := (cs[..|cs| - 1], cs[|cs| - 1]);
      assert cs == init + [last];
      NoRepeats(init);
    }
  }

  /** First occurrences keep the order: those of a prefix come first. */
  lemma {:induction false} KeepsOrder(cs: seq<Codec>, more: seq<Codec>)
    ensures FirstOccurrences(cs) <= FirstOccurrences(cs + more)
  {
    if more == [] {
      assert cs + more == cs;
    } else {
      assert (cs + more)[..|cs + more| - 1] == cs + more[..|more| - 1];
      KeepsOrder(cs, more[..|more| - 1]);
    }
  }

  lemma {:induction false} Pigeonhole(cs: seq<Codec>, pool: set<Codec>)
    requires Distinct(cs) && forall c | c in cs :: c in pool
    ensures |cs| <= |pool|
  {
    if cs != [] {
      var (init, last) := (cs[..|cs| - 1], cs[|cs| - 1]);
      Pigeonhole(init, pool - {last});
    }
  }

  /** Words that can come out of a codec list. */
  predicate Nameable(ws: seq<Word>) {
    forall i | 0 <= i < |ws| && ws[i].Use? :: ws[i].codec !in {G7221, All}
  }

  lemma WordsNameable(b: Build, fields: seq<string>)
    ensures Nameable(Words(b, fields))
    ensures forall i | 0 <= i < |fields| && Words(b, fields)[i].Use? :: Compiled(b, Words(b, fields)[i].codec)
  {
    forall i | 0 <= i < |fields| ensures CodecStrParse(fields[i]) != Some(G7221) {
      ParseSound(fields[i]);
    }
  }

  /** At most 11 codecs can be listed. */
  lemma ElevenCodecs(ws: seq<Word>)
    requires Nameable(ws) && Decide(ws).Listed?
    ensures |Decide(ws).codecs| < NUM_CODECS_AVAIL
  {
    var cs := CodecsOf(ws);
    NoRepeats(cs);
    var pool := {Speex, Ilbc, Gsm, G711, G722, Ipp, L16, Ocamr, Silk, Opus, Bcg729};
    forall c | c in FirstOccurrences(cs) ensures c in pool {
      var i :| 0 <= i < |cs| && cs[i] == c;
      assert ws[i].codec == c && c !in {G7221, All};
      assert c == G7221 || c == All || c in pool;
    }
    Pigeonhole(FirstOccurrences(cs), pool);
  }

  /** An explicit list has fewer than 12 codecs, so the count 12 is free to mean "all"; its
      codecs are distinct and all in the build. */
  lemma SentinelFree(b: Build, codecs: string)
    requires Select(b, codecs).Listed?
    ensures var cs := Select(b, codecs).codecs;
            |cs| <= 11 && Distinct(cs) && forall c | c in cs :: Compiled(b, c)
  {
    var ws := Words(b, Fields(codecs, ','));
    WordsNameable(b, Fields(codecs, ','));
    NoRepeats(CodecsOf(ws));
    ElevenCodecs(ws);
  }

  /** The codecs of an accepted list are those whose names start its fields. */
  lemma ListedCodecs(b: Build, codecs: string, c: Codec)
    requires Select(b, codecs).Listed?
    ensures c in Select(b, codecs).codecs <==>
            c != G7221 && exists f | f in Fields(codecs, ',') :: HasPrefix(f, Keyword(c))
  {
    hide HasPrefix, Keyword, Fields, CodecStrParse, Compiled;
    var fs := Fields(codecs, ',');
    var ws := Words(b, fs);
    var cs := CodecsOf(ws);
    NoRepeats(cs);
    if c in cs {
      var i :| 0 <= i < |cs| && cs[i] == c;
      assert ws[i] == Classify(b, fs[i]) && fs[i] in fs;
      ParseMeaning(fs[i], c);
    }
    if c != G7221 && exists f | f in fs :: HasPrefix(f, Keyword(c)) {
      var i :| 0 <= i < |fs| && HasPrefix(fs[i], Keyword(c));
      ParseMeaning(fs[i], c);
      assert ws[i].Use? && cs[i] == c;
    }
  }

  class MediaConfig {
    var cnt: nat
    const codec: array<Codec>

    ghost predicate Valid()
      reads this
    {
      codec.Length == NUM_CODECS_AVAIL && cnt <= NUM_CODECS_AVAIL
    }

    /** What the stored count and array stand for. */
    ghost function Selected(): Selection
      requires Valid()
      reads this, codec
    {
      if cnt == NUM_CODECS_AVAIL then Everything else Listed(codec[..cnt])
    }

    constructor ()
      ensures Valid() && fresh(codec)
      ensures Selected() == Listed([G711])
    {
      codec := new Codec[NUM_CODECS_AVAIL](_ => G711);
      cnt := 1;
    }

    method IsCodecSet(n: nat, c: Codec) returns (r: bool)
      requires n <= codec.Length
      ensures r <==> c in codec[..n]
    {
      for i := 0 to n
        invariant c !in codec[..i]
      {
        if codec[i] == c {
          return true;
        }
      }
      return false;
    }

    /** The stored selection is the one the list asks for, whatever the array held before; a
        rejected list leaves the count alone. */
    method SetMediaCodecsCfg(b: Build, codecsStr: string) returns (success: bool)
      requires Valid()
      modifies this, codec
      ensures Valid()
      ensures success <==> Select(b, codecsStr) != Rejected
      ensures success ==> Selected() == Select(b, codecsStr)
      ensures !success ==> cnt == old(cnt)
    {
      hide Fields, Classify, StrTok, Leading, Decide, Words;
      NoWords(b);
      var i := 0;
      ghost var seen, words := [], [];
      FirstCall(codecsStr, ',');
      var at := StrTok(codecsStr, ',', 0);
      while at.0 != |codecsStr|
        invariant at.0 + |at.1| <= |codecsStr| && (at.1 == "" <==> at.0 == |codecsStr|)
        invariant Fields(codecsStr, ',') == seen + Pending(codecsStr, ',', at)
        invariant words == Words(b, seen) && Nameable(words) && Leading(words) == |words|
        invariant i < codec.Length && cnt == old(cnt)
        invariant codec[..i] == FirstOccurrences(CodecsOf(words))
        decreases |codecsStr| - at.0
      {
        var word := ParseWord(b, at.1);
        Append(b, seen, Pending(codecsStr, ',', at));
        if word.AllWord? {
          cnt := NUM_CODECS_AVAIL;
          return true;
        }
        if word.Unknown? {
          return false;
        }
        OneMore(words, word);
        var isSet := IsCodecSet(i, word.codec);
        if !isSet {
          codec[i] := word.codec;
          i := i + 1;
        }
        NextCall(codecsStr, ',', seen, at);
        seen, words := seen + [at.1], words + [word];
        at := StrTok(codecsStr, ',', at.0 + |at.1|);
      }
      assert seen == Fields(codecsStr, ',');
      AllUsed(words);
      cnt := i;
      return true;
    }
  }

  lemma NoWords(b: Build)
    ensures Words(b, []) == [] && Leading([]) == 0
  {
  }

  lemma AllUsed(ws: seq<Word>)
    requires Leading(ws) == |ws|
    ensures Decide(ws) == Listed(FirstOccurrences(CodecsOf(ws)))
  {
  }

  /** Looking a token up and checking that the build has the codec. */
  method ParseWord(b: Build, token: string) returns (word: Word)
    ensures word == Classify(b, token) && (word.Use? ==> word.codec !in {G7221, All})
  {
    ParseSound(token);
    var codec := CodecStrParse(token);
    if codec == Some(All) {
      return AllWord;
    }
    if codec == None {
      return Unknown;
    }
    MaskIsMembership(b, codec.value);
    return if SupportCodec(b, codec.value) then Use(codec.value) else Unknown;
  }

  lemma Append(b: Build, seen: seq<string>, rest: seq<string>)
    requires rest != [] && Leading(Words(b, seen)) == |seen|
    ensures Words(b, seen + [rest[0]]) == Words(b, seen) + [Classify(b, rest[0])]
    ensures Classify(b, rest[0]).AllWord? ==> Decide(Words(b, seen + rest)) == Everything
    ensures Classify(b, rest[0]).Unknown? ==> Decide(Words(b, seen + rest)) == Rejected
  {
    hide Classify;
    var ws := Words(b, seen + rest);
    assert ws == Words(b, seen) + Words(b, rest);
    assert forall i | 0 <= i < |seen| :: ws[i].Use?;
    assert ws[|seen|] == Classify(b, rest[0]);
  }

  lemma OneMore(ws: seq<Word>, w: Word)
    requires Nameable(ws) && Leading(ws) == |ws|
    requires w.Use? && w.codec !in {G7221, All}
    ensures Nameable(ws + [w]) && Leading(ws + [w]) == |ws| + 1
    ensures var fo := FirstOccurrences(CodecsOf(ws));
            FirstOccurrences(CodecsOf(ws + [w])) == if w.codec in fo then fo else fo + [w.codec]
    ensures |FirstOccurrences(CodecsOf(ws + [w]))| < NUM_CODECS_AVAIL
  {
    assert Leading(ws + [w]) == |ws| + 1;
    assert CodecsOf(ws + [w])[..|ws|] == CodecsOf(ws);
    NoRepeats(CodecsOf(ws));
    ElevenCodecs(ws + [w]);
  }

  /** The text that lists `cs` by name. */
  function ListText(cs: seq<Codec>): string {
    Join(seq(|cs|, i requires 0 <= i < |cs| => Keyword(cs[i])), ',')
  }

  lemma KeywordField(c: Codec)
    ensures IsField(Keyword(c), ',')
  {
  }

  lemma KeywordParses(c: Codec)
    requires c != G7221
    ensures CodecStrParse(Keyword(c)) == Some(c)
  {
    hide *;
    SelfPrefix(Keyword(c));
    ParseMeaning(Keyword(c), c);
  }

  lemma SelfPrefix(s: string)
    ensures HasPrefix(s, s)
  {
    assert s[..|s|] == s;
  }

  lemma {:induction false} DistinctKept(cs: seq<Codec>)
    requires Distinct(cs)
    ensures FirstOccurrences(cs) == cs
  {
    if cs != [] {
      DistinctKept(cs[..|cs| - 1]);
    }
  }

  /** Round trip: naming any distinct codecs of the build, other than g722.1, selects exactly
      those codecs in that order. */
  lemma RoundTrip(b: Build, cs: seq<Codec>)
    requires Distinct(cs) && forall c | c in cs :: Compiled(b, c) && c != G7221
    ensures Select(b, ListText(cs)) == Listed(cs)
  {
    var names := seq(|cs|, i requires 0 <= i < |cs| => Keyword(cs[i]));
    forall i | 0 <= i < |cs| ensures IsField(names[i], ',') && Classify(b, names[i]) == Use(cs[i]) {
      assert cs[i] in cs;
      KeywordField(cs[i]);
      KeywordParses(cs[i]);
    }
    FieldsOfJoin(names, ',');
    var ws := Words(b, names);
    assert Leading(ws) == |ws| && CodecsOf(ws) == cs;
    DistinctKept(cs);
  }

  datatype Registration = Registered | InitFailed | UnknownCodec

  /** Registering codecs one by one: `init` says which library initialisations succeed. */
  function Registering(b: Build, cs: seq<Codec>, init: Codec -> bool): Registration {
    if cs == [] then Registered
    else if !Compiled(b, cs[0]) then UnknownCodec
    else if !init(cs[0]) then InitFailed
    else Registering(b, cs[1..], init)
  }

  method SetMediaCodecs(b: Build, media: MediaConfig, init: Codec -> bool) returns (r: Registration)
    requires media.Valid()
    ensures r == Registering(b, media.codec[..media.cnt], init)
  {
    ghost var all := media.codec[..media.cnt];
    for i := 0 to media.cnt
      invariant Registering(b, all, init) == Registering(b, all[i..], init)
    {
      assert all[i..][1..] == all[i + 1..];
      if !Compiled(b, media.codec[i]) {
        return UnknownCodec;
      }
      if !init(media.codec[i]) {
        return InitFailed;
      }
    }
    return Registered;
  }

  /** The choice made when the SDP is built: the count 12 registers everything. */
  method RegisterCodecs(b: Build, media: MediaConfig, init: Codec -> bool, all: bool) returns (r: Registration)
    requires media.Valid()
    ensures media.Selected() == Everything ==> r == if all then Registered else InitFailed
    ensures media.Selected().Listed? ==> r == Registering(b, media.Selected().codecs, init)
  {
    if media.cnt == NUM_CODECS_AVAIL {
      return if all then Registered else InitFailed;
    }
    r := SetMediaCodecs(b, media, init);
  }

  /** The codec is in the build and its initialisation succeeds. */
  predicate Registers(b: Build, c: Codec, init: Codec -> bool) {
    Compiled(b, c) && init(c)
  }

  /** Registration succeeds exactly when every codec registers. */
  lemma {:induction false} RegisteringMeaning(b: Build, cs: seq<Codec>, init: Codec -> bool)
    ensures Registering(b, cs, init) == Registered <==> forall c | c in cs :: Registers(b, c, init)
    ensures (forall c | c in cs :: Compiled(b, c)) ==> Registering(b, cs, init) != UnknownCodec
    ensures (forall c | c in cs :: init(c)) && Registering(b, cs, init) != UnknownCodec
            ==> Registering(b, cs, init) == Registered
  {
    if cs != [] {
      RegisteringMeaning(b, cs[1..], init);
      assert cs == [cs[0]] + cs[1..];
      assert Registers(b, cs[0], init) <==> Compiled(b, cs[0]) && init(cs[0]);
    }
  }

  /** Otherwise the first codec that does not register decides what is reported. */
  lemma {:induction false} FirstFailureReported(b: Build, cs: seq<Codec>, init: Codec -> bool, k: nat)
    requires k < |cs| && !Registers(b, cs[k], init)
    requires forall i | 0 <= i < k :: Registers(b, cs[i], init)
    ensures Registering(b, cs, init) == if Compiled(b, cs[k]) then InitFailed else UnknownCodec
  {
    if k > 0 {
      assert Registers(b, cs[0], init);
      FirstFailureReported(b, cs[1..], init, k - 1);
    }
  }

  /** A codec list that configuration accepts is usable: registration never meets an unknown
      codec, and fails only when a library initialisation does. */
  lemma AcceptedIsUsable(b: Build, codecs: string, init: Codec -> bool)
    requires Select(b, codecs).Listed?
    ensures var cs := Select(b, codecs).codecs;
            && Registering(b, cs, init) != UnknownCodec
            && (Registering(b, cs, init) == Registered <==> forall c | c in cs :: init(c))
  {
    SentinelFree(b, codecs);
    RegisteringMeaning(b, Select(b, codecs).codecs, init);
  }
}
