/** What a whole command line configures: each setting as a closed form over the options given,
    for every sequence of options. */
module Settings {
  import opened PjLib
  import opened Lists
  import opened Decimal
  import opened Keywords
  import opened Codecs
  import opened Options

  function HeaderText(o: Opt): Option<string> { if o.AddHeader? then Some(o.text) else None }

  function ProxyOption(o: Opt): Option<string> { if o.AddProxy? then Some(o.text) else None }

  function CodecText(o: Opt): Option<string> { if o.SetCodecs? then Some(o.text) else None }

  function MwiText(o: Opt): Option<string> { if o.SetMwi? then Some(o.text) else None }

  function AccountText(o: Opt): Option<string> { if o.SetMwiAcc? then Some(o.text) else None }

  function EventText(o: Opt): Option<string> { if o.SetEvent? then Some(o.text) else None }

  function TypeText(o: Opt): Option<string> { if o.SetContentType? then Some(o.text) else None }

  function UserText(o: Opt): Option<string> { if o.SetUsername? then Some(o.text) else None }

  function LocalPortText(o: Opt): Option<string> { if o.SetLocalPort? then Some(o.text) else None }

  function RtpPortText(o: Opt): Option<string> { if o.SetRtpPort? then Some(o.text) else None }

  function ExpiresText(o: Opt): Option<string> { if o.SetExpires? then Some(o.text) else None }

  function AgentText(o: Opt): Option<string> { if o.SetUserAgent? then Some(o.text) else None }

  function ReferText(o: Opt): Option<string> { if o.SetReferTo? then Some(o.text) else None }

  function BodyText(o: Opt): Option<string> { if o.SetBody? then Some(o.text) else None }

  function CancelText(o: Opt): Option<string> { if o.SetCancel? then Some("") else None }

  /** The texts of the options of one kind, in order. */
  function Texts(opts: seq<Opt>, kind: Opt -> Option<string>): seq<string> {
    if opts == [] then []
    else (match kind(opts[0]) case None => [] case Some(t) => [t]) + Texts(opts[1..], kind)
  }

  /** The text of the last option of one kind. */
  function Last(opts: seq<Opt>, kind: Opt -> Option<string>): Option<string> {
    var ts := Texts(opts, kind);
    if ts == [] then None else Some(ts[|ts| - 1])
  }

  lemma LastFirst(opts: seq<Opt>, kind: Opt -> Option<string>)
    requires opts != []
    ensures Last(opts, kind) == if Last(opts[1..], kind).Some? then Last(opts[1..], kind) else kind(opts[0])
  {
  }

  // ----- settings where the last option wins -----

  /** Options of one kind set the setting to the value of their text, and no others touch it. */
  ghost predicate Sets<V>(b: Build, lib: UriLib, setting: Config -> V,
                          kind: Opt -> Option<string>, value: string -> V)
  {
    forall c: Config, o: Opt | Step(b, lib, c, o).Go? ::
      setting(Step(b, lib, c, o).cfg) == match kind(o) case None => setting(c) case Some(t) => value(t)
  }

  /** Then the last option of the kind decides, whatever stands between. */
  lemma {:induction false} LastDecides<V>(b: Build, lib: UriLib, c: Config, opts: seq<Opt>, setting: Config -> V,
                                          kind: Opt -> Option<string>, value: string -> V)
    requires Sets(b, lib, setting, kind, value) && RunOpts(b, lib, c, opts).Go?
    ensures setting(RunOpts(b, lib, c, opts).cfg) ==
            match Last(opts, kind) case None => setting(c) case Some(t) => value(t)
    decreases opts
  {
    if opts != [] {
      hide Step, Last;
      LastFirst(opts, kind);
      LastDecides(b, lib, Step(b, lib, c, opts[0]).cfg, opts[1..], setting, kind, value);
    }
  }

  lemma {:induction false} LastGiven(opts: seq<Opt>, kind: Opt -> Option<string>)
    ensures Last(opts, kind).Some? <==> exists o | o in opts :: kind(o).Some?
  {
    if opts != [] {
      LastGiven(opts[1..], kind);
      LastFirst(opts, kind);
      assert opts == [opts[0]] + opts[1..];
    }
  }

  function NoText(o: Opt): Option<string> { None }

  lemma NeverLast(opts: seq<Opt>)
    ensures Last(opts, NoText) == None
  {
    if opts != [] {
      NeverLast(opts[1..]);
      LastFirst(opts, NoText);
    }
  }

  /** What one option does to the settings; nothing but arguments sets command and destination. */
  lemma StepSets(b: Build, lib: UriLib, c: Config, o: Opt)
    requires Step(b, lib, c, o).Go?
    ensures var c' := Step(b, lib, c, o).cfg;
            && (if o.SetMwi? then c'.isMwi && c'.mwi == MwiCounts(o.text) else c'.isMwi == c.isMwi && c'.mwi == c.mwi)
            && c'.mwiAcc == (if o.SetMwiAcc? then Trim(o.text) else c.mwiAcc)
            && c'.media == (if o.SetCodecs? then Select(b, o.text) else c.media)
            && c'.userAgent == (if o.SetUserAgent? then Trim(o.text) else c.userAgent)
            && c'.username == (if o.SetUsername? then Some(Trim(o.text)) else c.username)
            && c'.presEv == (if o.SetEvent? then EventTypeOf(Trim(o.text)) else c.presEv)
            && c'.event == (if o.SetEvent? then Trim(o.text) else c.event)
            && c'.ctype == (if o.SetContentType? then ContentTypeOf(Trim(o.text)) else c.ctype)
            && c'.mediaType == (if o.SetContentType? then MediaTypeOf(Trim(o.text)) else c.mediaType)
            && c'.referTo == (if o.SetReferTo? then Some(Trim(o.text)) else c.referTo)
            && c'.body == (if o.SetBody? then Some(Trim(o.text)) else c.body)
            && c'.cancel == (o.SetCancel? || c.cancel)
            && Some(c'.localPort) == (if o.SetLocalPort? then PortValue(o.text) else Some(c.localPort))
            && Some(c'.rtpPort) == (if o.SetRtpPort? then PortValue(o.text) else Some(c.rtpPort))
            && Some(c'.expires) == (if o.SetExpires? then ExpiresValue(o.text) else Some(c.expires))
            && c'.dest == c.dest && c'.cmd == c.cmd
  {
    hide Select, MwiCounts, Trim, EventTypeOf, ContentTypeOf, MediaTypeOf;
    hide ParseHeader, ProxyText, PortValue, ExpiresValue;
  }

  /** -M, --mwi-acc, --codec and -A: what the last of each leaves, when parsing goes through. */
  lemma LastWins(b: Build, lib: UriLib, c: Config, opts: seq<Opt>)
    requires RunOpts(b, lib, c, opts).Go?
    ensures var c' := RunOpts(b, lib, c, opts).cfg;
            && (c'.isMwi <==> c.isMwi || Last(opts, MwiText).Some?)
            && c'.mwi == (match Last(opts, MwiText) case None => c.mwi case Some(t) => MwiCounts(t))
            && c'.mwiAcc == (match Last(opts, AccountText) case None => c.mwiAcc case Some(t) => Trim(t))
            && c'.media == (match Last(opts, CodecText) case None => c.media case Some(t) => Select(b, t))
            && c'.userAgent == (match Last(opts, AgentText) case None => c.userAgent case Some(t) => Trim(t))
  {
    hide Step, RunOpts, Last, MwiCounts, Trim, Select;
    forall c, o | Step(b, lib, c, o).Go? { StepSets(b, lib, c, o); }
    LastDecides(b, lib, c, opts, (c: Config) => c.isMwi, MwiText, t => true);
    LastDecides(b, lib, c, opts, (c: Config) => c.mwi, MwiText, MwiCounts);
    LastDecides(b, lib, c, opts, (c: Config) => c.mwiAcc, AccountText, Trim);
    LastDecides(b, lib, c, opts, (c: Config) => c.media, CodecText, t => Select(b, t));
    LastDecides(b, lib, c, opts, (c: Config) => c.userAgent, AgentText, Trim);
  }

  /** -E and -C. */
  lemma LastEventWins(b: Build, lib: UriLib, c: Config, opts: seq<Opt>)
    requires RunOpts(b, lib, c, opts).Go?
    ensures var c' := RunOpts(b, lib, c, opts).cfg;
            && c'.presEv == (match Last(opts, EventText) case None => c.presEv case Some(t) => EventTypeOf(Trim(t)))
            && c'.event == (match Last(opts, EventText) case None => c.event case Some(t) => Trim(t))
            && c'.ctype == (match Last(opts, TypeText) case None => c.ctype case Some(t) => ContentTypeOf(Trim(t)))
  {
    hide Step, RunOpts, Last, Trim, EventTypeOf, ContentTypeOf;
    forall c, o | Step(b, lib, c, o).Go? { StepSets(b, lib, c, o); }
    LastDecides(b, lib, c, opts, (c: Config) => c.presEv, EventText, t => EventTypeOf(Trim(t)));
    LastDecides(b, lib, c, opts, (c: Config) => c.event, EventText, Trim);
    LastDecides(b, lib, c, opts, (c: Config) => c.ctype, TypeText, t => ContentTypeOf(Trim(t)));
  }

  /** -u; and command and destination, which no option sets. */
  lemma LastUserWins(b: Build, lib: UriLib, c: Config, opts: seq<Opt>)
    requires RunOpts(b, lib, c, opts).Go?
    ensures var c' := RunOpts(b, lib, c, opts).cfg;
            && c'.username == (match Last(opts, UserText) case None => c.username case Some(t) => Some(Trim(t)))
            && c'.dest == c.dest && c'.cmd == c.cmd
  {
    hide Step, RunOpts, Last, Trim;
    forall c, o | Step(b, lib, c, o).Go? { StepSets(b, lib, c, o); }
    NeverLast(opts);
    LastDecides(b, lib, c, opts, (c: Config) => c.username, UserText, t => Some(Trim(t)));
    LastDecides(b, lib, c, opts, (c: Config) => (c.dest, c.cmd), NoText, t => (c.dest, c.cmd));
  }

  /** -C, as the media type of a body. */
  lemma LastMediaTypeWins(b: Build, lib: UriLib, c: Config, opts: seq<Opt>)
    requires RunOpts(b, lib, c, opts).Go?
    ensures RunOpts(b, lib, c, opts).cfg.mediaType ==
            match Last(opts, TypeText) case None => c.mediaType case Some(t) => MediaTypeOf(Trim(t))
  {
    hide Step, RunOpts, Last, Trim, MediaTypeOf;
    forall c, o | Step(b, lib, c, o).Go? { StepSets(b, lib, c, o); }
    LastDecides(b, lib, c, opts, (c: Config) => c.mediaType, TypeText, t => MediaTypeOf(Trim(t)));
  }

  /** --to and --body; and --cancel, which counts once given. */
  lemma LastTargetWins(b: Build, lib: UriLib, c: Config, opts: seq<Opt>)
    requires RunOpts(b, lib, c, opts).Go?
    ensures var c' := RunOpts(b, lib, c, opts).cfg;
            && c'.referTo == (match Last(opts, ReferText) case None => c.referTo case Some(t) => Some(Trim(t)))
            && c'.body == (match Last(opts, BodyText) case None => c.body case Some(t) => Some(Trim(t)))
            && (c'.cancel <==> c.cancel || SetCancel in opts)
  {
    hide Step, RunOpts, Last, Trim;
    forall c, o | Step(b, lib, c, o).Go? { StepSets(b, lib, c, o); }
    LastDecides(b, lib, c, opts, (c: Config) => c.referTo, ReferText, t => Some(Trim(t)));
    LastDecides(b, lib, c, opts, (c: Config) => c.body, BodyText, t => Some(Trim(t)));
    LastDecides(b, lib, c, opts, (c: Config) => c.cancel, CancelText, t => true);
    LastGiven(opts, CancelText);
    assert SetCancel in opts <==> exists o | o in opts :: CancelText(o).Some?;
  }

  /** -P, --rtp-port and -X. */
  lemma LastNumberWins(b: Build, lib: UriLib, c: Config, opts: seq<Opt>)
    requires RunOpts(b, lib, c, opts).Go?
    ensures var c' := RunOpts(b, lib, c, opts).cfg;
            && Some(c'.localPort) ==
               (match Last(opts, LocalPortText) case None => Some(c.localPort) case Some(t) => PortValue(t))
            && Some(c'.rtpPort) ==
               (match Last(opts, RtpPortText) case None => Some(c.rtpPort) case Some(t) => PortValue(t))
            && Some(c'.expires) ==
               (match Last(opts, ExpiresText) case None => Some(c.expires) case Some(t) => ExpiresValue(t))
  {
    hide Step, RunOpts, Last, PortValue, ExpiresValue;
    forall c, o | Step(b, lib, c, o).Go? { StepSets(b, lib, c, o); }
    LastDecides(b, lib, c, opts, (c: Config) => Some(c.localPort), LocalPortText, PortValue);
    LastDecides(b, lib, c, opts, (c: Config) => Some(c.rtpPort), RtpPortText, PortValue);
    LastDecides(b, lib, c, opts, (c: Config) => Some(c.expires), ExpiresText, ExpiresValue);
  }

  // ----- ports -----

  predicate IsInt32(n: int) {
    -0x8000_0000 <= n <= 0x7fff_ffff
  }

  lemma InRange(n: int)
    ensures ToInt32(n) == n <==> IsInt32(n)
  {
  }

  predicate Blank(s: string) {
    forall i | 0 <= i < |s| :: IsSpace(s[i])
  }

  predicate Unindented(s: string) {
    s == "" || !IsSpace(s[0])
  }

  lemma {:induction false} TrimBlank(blank: string, s: string)
    requires Blank(blank) && Unindented(s)
    ensures TrimLeft(blank + s) == s
  {
    if blank == "" {
      assert blank + s == s;
    } else {
      assert (blank + s)[1..] == blank[1..] + s;
      TrimBlank(blank[1..], s);
    }
  }

  /** What trimming the end takes away is white space. */
  lemma {:induction false} TrimRightSplit(s: string)
    ensures Blank(s[|TrimRight(s)|..])
  {
    if s != "" && IsSpace(s[|s| - 1]) {
      var init := s[..|s| - 1];
      TrimRightSplit(init);
      var n := |TrimRight(init)|;
      assert s[n..] == init[n..] + [s[|s| - 1]];
    }
  }

  lemma DigitsOnly(s: string)
    ensures AllDigits(s) <==> forall c | c in s :: '0' <= c <= '9'
  {
    if AllDigits(s) {
      forall c | c in s ensures '0' <= c <= '9' {
        var i :| 0 <= i < |s| && s[i] == c;
        assert IsDigit(s[i]);
      }
    }
    if forall c | c in s :: '0' <= c <= '9' {
      assert forall i | 0 <= i < |s| :: s[i] in s;
    }
  }

  /** `atoi` of a text that is digits, with white space around it, reads these. */
  lemma NumberRead(text: string)
    requires AllDigits(Trim(text))
    ensures Atoi(text) == ToInt32(DigitsFrom(Trim(text), 0))
  {
    hide ToInt32;
    var t := TrimLeft(text);
    var digits := Trim(text);
    var rest := t[|digits|..];
    TrimRightSplit(t);
    assert t == digits + rest && digits == TrimRight(t);
    DigitsThen(digits, rest, 0);
    if digits == "" {
      assert rest == t && Blank(t);
    } else {
      assert t[0] == digits[0] && IsDigit(t[0]);
    }
    assert rest != "" ==> IsSpace(rest[0]);
    assert StrToL(t) == DigitsFrom(digits, 0);
  }

  /** For every text: it is taken as a port exactly when, without the white space around it, it
      is a row of one or more digits whose value as an `int` is in 1..65535; otherwise the
      process exits. */
  lemma PortMeaning(text: string)
    ensures var digits := Trim(text);
            var v := ToInt32(DigitsFrom(digits, 0));
            PortValue(text) ==
            if digits != "" && (forall c | c in digits :: '0' <= c <= '9') && 1 <= v <= 65535 then Some(v) else None
  {
    DigitsOnly(Trim(text));
    if AllDigits(Trim(text)) {
      NumberRead(text);
    }
  }

  /** For every text: it is taken as an expiry exactly when, without the white space around it,
      it is a row of digits; the value is theirs, in 32 bits, and 0 when there are none. */
  lemma ExpiresMeaning(text: string)
    ensures var digits := Trim(text);
            ExpiresValue(text) ==
            if forall c | c in digits :: '0' <= c <= '9' then Some(DigitsFrom(digits, 0) % 0x1_0000_0000) else None
  {
    DigitsOnly(Trim(text));
    if AllDigits(Trim(text)) {
      NumberRead(text);
      assert ToInt32(DigitsFrom(Trim(text), 0)) % 0x1_0000_0000 == DigitsFrom(Trim(text), 0) % 0x1_0000_0000;
    }
  }

  lemma {:induction false} TrimRightBlank(s: string, blank: string)
    requires Blank(blank) && (s == "" || !IsSpace(s[|s| - 1]))
    ensures TrimRight(s + blank) == s
  {
    if blank == "" {
      assert s + blank == s;
    } else {
      var init := blank[..|blank| - 1];
      assert (s + blank)[..|s + blank| - 1] == s + init;
      TrimRightBlank(s, init);
    }
  }

  /** Trimming takes away the white space around a text, and nothing else. */
  lemma TrimRoundTrip(blank: string, s: string, blank': string)
    requires Blank(blank) && Blank(blank')
    requires s == "" || (!IsSpace(s[0]) && !IsSpace(s[|s| - 1]))
    ensures Trim(blank + s + blank') == s
  {
    if s == "" {
      assert Blank(blank + blank');
      assert blank + s + blank' == (blank + blank') + "";
      TrimBlank(blank + blank', "");
    } else {
      assert blank + s + blank' == blank + (s + blank');
      TrimBlank(blank, s + blank');
      TrimRightBlank(s, blank');
    }
  }

  // ----- headers and proxies within their arrays -----

  predicate AllParse(ts: seq<string>) {
    forall i | 0 <= i < |ts| :: ParseHeader(ts[i]).Some?
  }

  function HeadersOf(ts: seq<string>): seq<Header>
    requires AllParse(ts)
  {
    seq(|ts|, i requires 0 <= i < |ts| => ParseHeader(ts[i]).value)
  }

  lemma ParseCons(hs: seq<Header>, t: string, ts: seq<string>)
    ensures AllParse([t] + ts) <==> ParseHeader(t).Some? && AllParse(ts)
    ensures AllParse([t] + ts) ==> hs + HeadersOf([t] + ts) == (hs + [ParseHeader(t).value]) + HeadersOf(ts)
  {
    hide ParseHeader;
    var all := [t] + ts;
    assert all[0] == t;
    assert forall i | 0 <= i < |ts| :: ts[i] == all[i + 1];
  }

  /** The texts of the options that parse and print as they are. */
  function PlainProxies(lib: UriLib, ts: seq<string>): seq<string> {
    if ts == [] then []
    else (match ProxyText(lib, ts[0], 1) case None => [] case Some(t) => [t]) + PlainProxies(lib, ts[1..])
  }

  /** All proxies a list of options asks for: the first option that parses and prints with
      loose routing forced, so printed; then every later one that parses and prints as is. */
  function Proxies(lib: UriLib, ts: seq<string>): seq<string> {
    if ts == [] then []
    else
      match ProxyText(lib, ts[0], 0)
      case None => Proxies(lib, ts[1..])
      case Some(t) => [t] + PlainProxies(lib, ts[1..])
  }

  /** All proxies asked for when `stored` are stored already. */
  function AllProxies(lib: UriLib, stored: seq<string>, ts: seq<string>): seq<string> {
    if stored == [] then Proxies(lib, ts) else stored + PlainProxies(lib, ts)
  }

  lemma ProxyStep(lib: UriLib, stored: seq<string>, t: string, ts: seq<string>)
    ensures AllProxies(lib, stored, [t] + ts) ==
            match ProxyText(lib, t, |stored|)
            case None => AllProxies(lib, stored, ts)
            case Some(text) => AllProxies(lib, stored + [text], ts)
    ensures stored <= AllProxies(lib, stored, ts) && AllProxies(lib, stored, []) == stored
  {
    var all := [t] + ts;
    assert all[0] == t && all[1..] == ts;
    assert ProxyText(lib, t, |stored|) == ProxyText(lib, t, if stored == [] then 0 else 1);
    match ProxyText(lib, t, |stored|)
    case None =>
    case Some(text) => assert stored + ([text] + PlainProxies(lib, ts)) == (stored + [text]) + PlainProxies(lib, ts);
  }

  /** The option ends the parsing by itself, wherever it stands. */
  predicate Stops(b: Build, o: Opt) {
    match o
    case AddHeader(text) => ParseHeader(text) == None
    case SetCodecs(text) => Select(b, text) == Rejected
    case SetLocalPort(text) => PortValue(text) == None
    case SetRtpPort(text) => PortValue(text) == None
    case SetExpires(text) => ExpiresValue(text) == None
    case AskHelp => true
    case AskVersion => true
    case _ => false
  }

  /** The options before the first that ends the parsing. */
  function Processed(b: Build, opts: seq<Opt>): seq<Opt> {
    if opts == [] || Stops(b, opts[0]) then [] else [opts[0]] + Processed(b, opts[1..])
  }

  /** No more than 12 headers and no more than 12 accepted proxies are asked for before the
      parsing ends. */
  predicate Fits(b: Build, lib: UriLib, c: Config, opts: seq<Opt>) {
    var ps := Processed(b, opts);
    && |c.hdrs| + |Texts(ps, HeaderText)| <= 12
    && |AllProxies(lib, c.proxy, Texts(ps, ProxyOption))| <= 12
  }

  /** What one option does to the stores. */
  lemma StoreStep(b: Build, lib: UriLib, c: Config, o: Opt)
    requires |c.hdrs| <= 12 && |c.proxy| <= 12
    ensures var out := Step(b, lib, c, o);
            if Stops(b, o) then
              out == match o
                     case AddHeader(_) => Returned(false, c)
                     case AskHelp => Returned(true, c.(cmd := Help))
                     case AskVersion => Returned(true, c.(cmd := Version))
                     case _ => Exited
            else match o
              case AddHeader(text) =>
                if |c.hdrs| == 12 then out.Overrun?
                else out == Go(c.(hdrs := c.hdrs + [ParseHeader(text).value]))
              case AddProxy(text) =>
                (match ProxyText(lib, text, |c.proxy|)
                 case None => out == Go(c)
                 case Some(t) => if |c.proxy| == 12 then out.Overrun? else out == Go(c.(proxy := c.proxy + [t])))
              case _ => out.Go? && out.cfg.hdrs == c.hdrs && out.cfg.proxy == c.proxy
  {
    hide Select, MwiCounts, Trim, EventTypeOf, ContentTypeOf, MediaTypeOf;
    hide ParseHeader, ProxyText, PortValue, ExpiresValue;
  }

  /** Whether the options fit, told from the first option on. */
  lemma FitsStep(b: Build, lib: UriLib, c: Config, opts: seq<Opt>)
    requires opts != [] && |c.hdrs| <= 12 && |c.proxy| <= 12
    ensures Stops(b, opts[0]) ==> Fits(b, lib, c, opts) && Processed(b, opts) != opts
    ensures !Stops(b, opts[0]) ==>
              (Processed(b, opts) == opts <==> Processed(b, opts[1..]) == opts[1..]) &&
              (Fits(b, lib, c, opts) <==>
                var out := Step(b, lib, c, opts[0]); out.Go? && Fits(b, lib, out.cfg, opts[1..]))
  {
    hide ParseHeader, ProxyText, Proxies, PlainProxies, Step, AllProxies, Stops;
    var (o, rest) := (opts[0], opts[1..]);
    StoreStep(b, lib, c, o);
    if Stops(b, o) {
      assert Processed(b, opts) == [];
      ProxyStep(lib, c.proxy, "", []);
    } else {
      var ps := Processed(b, rest);
      assert ([o] + ps)[1..] == ps;
      assert Texts([o] + ps, HeaderText) == (if o.AddHeader? then [o.text] else []) + Texts(ps, HeaderText);
      assert Texts([o] + ps, ProxyOption) == (if o.AddProxy? then [o.text] else []) + Texts(ps, ProxyOption);
      if o.AddProxy? {
        var (ts, text) := (Texts(ps, ProxyOption), ProxyText(lib, o.text, |c.proxy|));
        ProxyStep(lib, c.proxy, o.text, ts);
        if text.Some? {
          ProxyStep(lib, c.proxy + [text.value], "", ts);
        }
      } else {
        assert [] + Texts(ps, ProxyOption) == Texts(ps, ProxyOption);
      }
      assert [] + Texts(ps, HeaderText) == Texts(ps, HeaderText);
    }
  }

  lemma {:induction false} OutcomeFrom(b: Build, lib: UriLib, c: Config, opts: seq<Opt>)
    requires |c.hdrs| <= 12 && |c.proxy| <= 12
    ensures RunOpts(b, lib, c, opts).Overrun? <==> !Fits(b, lib, c, opts)
    ensures RunOpts(b, lib, c, opts).Go? <==> Fits(b, lib, c, opts) && Processed(b, opts) == opts
    decreases opts
  {
    if opts == [] {
      ProxyStep(lib, c.proxy, "", []);
    } else {
      hide Fits, Processed, Step, Stops;
      FitsStep(b, lib, c, opts);
      StoreStep(b, lib, c, opts[0]);
      var out := Step(b, lib, c, opts[0]);
      if out.Go? {
        OutcomeFrom(b, lib, out.cfg, opts[1..]);
      }
    }
  }

  lemma {:induction false} EndingFrom(b: Build, lib: UriLib, c: Config, opts: seq<Opt>)
    requires |c.hdrs| <= 12 && |c.proxy| <= 12 && Fits(b, lib, c, opts) && |Processed(b, opts)| < |opts|
    ensures var out := RunOpts(b, lib, c, opts);
            match opts[|Processed(b, opts)|]
            case AddHeader(_) => out.Returned? && !out.success
            case AskHelp => out.Returned? && out.success && out.cfg.cmd == Help
            case AskVersion => out.Returned? && out.success && out.cfg.cmd == Version
            case _ => out == Exited
    decreases opts
  {
    hide Fits, Step, Stops;
    FitsStep(b, lib, c, opts);
    StoreStep(b, lib, c, opts[0]);
    if !Stops(b, opts[0]) {
      EndingFrom(b, lib, Step(b, lib, c, opts[0]).cfg, opts[1..]);
    }
  }

  lemma {:induction false} HeadersFrom(b: Build, lib: UriLib, c: Config, opts: seq<Opt>)
    requires |c.hdrs| <= 12 && |c.proxy| <= 12 && RunOpts(b, lib, c, opts).Go?
    ensures var ts := Texts(opts, HeaderText);
            AllParse(ts) && RunOpts(b, lib, c, opts).cfg.hdrs == c.hdrs + HeadersOf(ts)
    decreases opts
  {
    if opts != [] {
      hide Step, ParseHeader, ProxyText, AllParse, HeadersOf;
      var (o, rest) := (opts[0], opts[1..]);
      StoreStep(b, lib, c, o);
      hide Stops, Texts;
      var c' := Step(b, lib, c, o).cfg;
      HeadersFrom(b, lib, c', rest);
      FirstText(opts, HeaderText);
      if o.AddHeader? {
        ParseCons(c.hdrs, o.text, Texts(rest, HeaderText));
      }
    } else {
      NoHeaders(c.hdrs);
    }
  }

  lemma FirstText(opts: seq<Opt>, kind: Opt -> Option<string>)
    requires opts != []
    ensures Texts(opts, kind) ==
            match kind(opts[0]) case None => Texts(opts[1..], kind) case Some(t) => [t] + Texts(opts[1..], kind)
  {
  }

  lemma NoHeaders(hs: seq<Header>)
    ensures AllParse([]) && hs + HeadersOf([]) == hs
  {
  }

  lemma {:induction false} ProxiesFrom(b: Build, lib: UriLib, c: Config, opts: seq<Opt>)
    requires |c.hdrs| <= 12 && |c.proxy| <= 12 && RunOpts(b, lib, c, opts).Go?
    ensures RunOpts(b, lib, c, opts).cfg.proxy == AllProxies(lib, c.proxy, Texts(opts, ProxyOption))
    decreases opts
  {
    hide Step, ParseHeader, ProxyText, AllProxies;
    if opts == [] {
      ProxyStep(lib, c.proxy, "", []);
    } else {
      var (o, rest) := (opts[0], opts[1..]);
      StoreStep(b, lib, c, o);
      ProxiesFrom(b, lib, Step(b, lib, c, o).cfg, rest);
      if o.AddProxy? {
        ProxyStep(lib, c.proxy, o.text, Texts(rest, ProxyOption));
        assert Texts(opts, ProxyOption) == [o.text] + Texts(rest, ProxyOption);
      } else {
        assert Texts(opts, ProxyOption) == [] + Texts(rest, ProxyOption) == Texts(rest, ProxyOption);
      }
    }
  }

  /** No write leaves the arrays of 12 exactly when at most 12 -H options and at most 12
      accepted -R options stand before the first option that ends the parsing; and then
      parsing goes through exactly when no option ends it. */
  lemma WithinArrays(b: Build, lib: UriLib, mwi: seq<int>, opts: seq<Opt>)
    ensures var (out, ps) := (RunOpts(b, lib, Initial(mwi), opts), Processed(b, opts));
            var fits := |Texts(ps, HeaderText)| <= 12 && |Proxies(lib, Texts(ps, ProxyOption))| <= 12;
            && (out.Overrun? <==> !fits)
            && (out.Go? <==> fits && ps == opts)
  {
    OutcomeFrom(b, lib, Initial(mwi), opts);
  }

  /** How an option ends the parsing when no write has left the arrays: a header without colon
      makes it fail, -h and -V make it return with the command they name, and a port, an expiry
      or a codec list that is not accepted ends the process. */
  lemma EndedBy(b: Build, lib: UriLib, mwi: seq<int>, opts: seq<Opt>)
    requires var ps := Processed(b, opts);
             && |Texts(ps, HeaderText)| <= 12 && |Proxies(lib, Texts(ps, ProxyOption))| <= 12
             && |ps| < |opts|
    ensures var out := RunOpts(b, lib, Initial(mwi), opts);
            match opts[|Processed(b, opts)|]
            case AddHeader(_) => out.Returned? && !out.success
            case AskHelp => out.Returned? && out.success && out.cfg.cmd == Help
            case AskVersion => out.Returned? && out.success && out.cfg.cmd == Version
            case _ => out == Exited
  {
    EndingFrom(b, lib, Initial(mwi), opts);
  }

  /** When parsing goes through, the stored headers are those of the -H options, in order, and
      the stored proxies those that the -R options ask for; both are at most 12. */
  lemma StoredLists(b: Build, lib: UriLib, mwi: seq<int>, opts: seq<Opt>)
    requires RunOpts(b, lib, Initial(mwi), opts).Go?
    ensures var (c, ts) := (RunOpts(b, lib, Initial(mwi), opts).cfg, Texts(opts, HeaderText));
            && AllParse(ts) && c.hdrs == HeadersOf(ts) && |ts| <= 12
            && c.proxy == Proxies(lib, Texts(opts, ProxyOption)) && |c.proxy| <= 12
  {
    WithinArrays(b, lib, mwi, opts);
    HeadersFrom(b, lib, Initial(mwi), opts);
    ProxiesFrom(b, lib, Initial(mwi), opts);
  }

  /** A command line that leaves the header array: 13 times -H X:1. */
  lemma ThirteenHeaders(b: Build, lib: UriLib, mwi: seq<int>)
    ensures RunOpts(b, lib, Initial(mwi), seq(13, _ => AddHeader("X:1"))) == Overrun
  {
    assert "" + "X" + ":" + "" + "1" == "X:1";
    HeaderRoundTrip("", "X", "", "1");
    ManyHeaders(b, lib, Initial(mwi), "X:1", 13);
  }

  lemma {:induction false} ManyHeaders(b: Build, lib: UriLib, c: Config, t: string, n: nat)
    requires ParseHeader(t).Some? && |c.hdrs| <= 12 && |c.hdrs| + n == 13
    ensures RunOpts(b, lib, c, seq(n, _ => AddHeader(t))) == Overrun
    decreases n
  {
    hide ParseHeader;
    var opts := seq(n, _ => AddHeader(t));
    assert opts[0] == AddHeader(t) && opts[1..] == seq(n - 1, _ => AddHeader(t));
    if |c.hdrs| < 12 {
      ManyHeaders(b, lib, WithHeader(c, t).cfg, t, n - 1);
    }
  }

  /** Command lines that leave the proxy array: 13 times a proxy that parses and prints, loose
      routing forced or not. */
  lemma ThirteenProxies(b: Build, lib: UriLib, mwi: seq<int>, t: string)
    requires ProxyText(lib, t, 0).Some? && ProxyText(lib, t, 1).Some?
    ensures RunOpts(b, lib, Initial(mwi), seq(13, _ => AddProxy(t))) == Overrun
  {
    ManyProxies(b, lib, Initial(mwi), t, 13);
  }

  lemma {:induction false} ManyProxies(b: Build, lib: UriLib, c: Config, t: string, n: nat)
    requires ProxyText(lib, t, 0).Some? && ProxyText(lib, t, 1).Some?
    requires |c.proxy| <= 12 && |c.proxy| + n == 13
    ensures RunOpts(b, lib, c, seq(n, _ => AddProxy(t))) == Overrun
    decreases n
  {
    var opts := seq(n, _ => AddProxy(t));
    assert opts[0] == AddProxy(t) && opts[1..] == seq(n - 1, _ => AddProxy(t));
    assert ProxyText(lib, t, |c.proxy|) == ProxyText(lib, t, if |c.proxy| == 0 then 0 else 1);
    if |c.proxy| < 12 {
      ManyProxies(b, lib, WithProxy(lib, c, t).cfg, t, n - 1);
    }
  }

  /** Round trip: a name without colon and a value, neither indented, come back from the text
      that holds them with any white space in front of each; later colons are the value's. */
  lemma HeaderRoundTrip(blank: string, name: string, blank': string, value: string)
    requires Blank(blank) && Blank(blank') && Unindented(name) && Unindented(value) && ':' !in name
    ensures ParseHeader(blank + name + ":" + blank' + value) == Some(Header(name, value))
  {
    var t := name + ":" + (blank' + value);
    assert blank + name + ":" + blank' + value == blank + t;
    TrimBlank(blank, t);
    assert t[..|name|] == name && t[|name|] == ':' && t[|name| + 1..] == blank' + value;
    assert t[0..|name|] == name;
    FindIs(t, ':', 0, |name|);
    TrimBlank(blank', value);
  }

  /** A header option is rejected exactly when it has no colon. */
  lemma HeaderRejected(text: string)
    ensures ParseHeader(text) == None <==> ':' !in text
  {
    var t := TrimLeft(text);
    TrimKeeps(text, ':');
    FindSpec(t, ':', 0);
    var d := Find(t, ':', 0);
    if d == |t| {
      assert t[0..d] == t;
    }
  }

  lemma {:induction false} TrimKeeps(s: string, c: char)
    requires !IsSpace(c)
    ensures c in s <==> c in TrimLeft(s)
  {
    if s != "" && IsSpace(s[0]) {
      TrimKeeps(s[1..], c);
      assert s == [s[0]] + s[1..];
    }
  }

  // ----- proxies -----

  /** `text` is what the option text `t` prints as, with or without loose routing forced. */
  predicate PrintedAs(lib: UriLib, t: string, text: string, forced: bool) {
    var uri := lib.parse(TrimLeft(t));
    uri.Some? && lib.printUri(if forced then uri.value.(lr := true) else uri.value) == Some(text)
  }

  lemma {:induction false} PlainArePlain(lib: UriLib, ts: seq<string>, k: nat)
    requires k < |PlainProxies(lib, ts)|
    ensures exists t | t in ts :: PrintedAs(lib, t, PlainProxies(lib, ts)[k], false)
  {
    assert ts[0] in ts;
    var head := ProxyText(lib, ts[0], 1);
    if head.Some? && k == 0 {
      assert PrintedAs(lib, ts[0], head.value, false);
    } else {
      PlainArePlain(lib, ts[1..], if head.Some? then k - 1 else k);
      var t :| t in ts[1..] && PrintedAs(lib, t, PlainProxies(lib, ts)[k], false);
      assert t in ts;
    }
  }

  lemma {:induction false} AskedForcedOnce(lib: UriLib, ts: seq<string>, k: nat)
    requires k < |Proxies(lib, ts)|
    ensures exists t | t in ts :: PrintedAs(lib, t, Proxies(lib, ts)[k], k == 0)
  {
    assert ts[0] in ts;
    var head := ProxyText(lib, ts[0], 0);
    if head == None {
      AskedForcedOnce(lib, ts[1..], k);
      var t :| t in ts[1..] && PrintedAs(lib, t, Proxies(lib, ts)[k], k == 0);
      assert t in ts;
    } else if k == 0 {
      assert PrintedAs(lib, ts[0], head.value, true);
    } else {
      PlainArePlain(lib, ts[1..], k - 1);
      var t :| t in ts[1..] && PrintedAs(lib, t, Proxies(lib, ts)[k], false);
      assert t in ts;
    }
  }

  lemma {:induction false} PlainInOrder(lib: UriLib, ts: seq<string>, k: nat)
    requires k < |ts| && ProxyText(lib, ts[k], 1).Some?
    ensures |PlainProxies(lib, ts[..k])| < |PlainProxies(lib, ts)|
    ensures PlainProxies(lib, ts)[|PlainProxies(lib, ts[..k])|] == ProxyText(lib, ts[k], 1).value
  {
    if k > 0 {
      assert ts[..k][1..] == ts[1..][..k - 1];
      PlainInOrder(lib, ts[1..], k - 1);
    }
  }

  lemma {:induction false} AskedInOrder(lib: UriLib, ts: seq<string>, k: nat)
    requires k < |ts| && ProxyText(lib, ts[k], |Proxies(lib, ts[..k])|).Some?
    ensures var n := |Proxies(lib, ts[..k])|;
            n < |Proxies(lib, ts)| && Proxies(lib, ts)[n] == ProxyText(lib, ts[k], n).value
  {
    if k > 0 {
      var (head, rest) := (ProxyText(lib, ts[0], 0), ts[1..]);
      assert ts[..k][1..] == rest[..k - 1];
      if head == None {
        AskedInOrder(lib, rest, k - 1);
      } else {
        var n := |Proxies(lib, ts[..k])|;
        assert n >= 1 && ProxyText(lib, ts[k], n) == ProxyText(lib, ts[k], 1);
        PlainInOrder(lib, rest, k - 1);
      }
    }
  }

  /** When parsing goes through, loose routing is forced on the first stored proxy, even after
      rejected options, and on no other. */
  lemma LooseRoutingForcedOnce(b: Build, lib: UriLib, mwi: seq<int>, opts: seq<Opt>, k: nat)
    requires RunOpts(b, lib, Initial(mwi), opts).Go? && k < |RunOpts(b, lib, Initial(mwi), opts).cfg.proxy|
    ensures var stored := RunOpts(b, lib, Initial(mwi), opts).cfg.proxy;
            exists t | t in Texts(opts, ProxyOption) :: PrintedAs(lib, t, stored[k], k == 0)
  {
    hide PrintedAs, RunOpts;
    StoredLists(b, lib, mwi, opts);
    AskedForcedOnce(lib, Texts(opts, ProxyOption), k);
  }

  /** When parsing goes through, every option that is accepted where it stands is stored, at
      the place given by how many were accepted before it. */
  lemma ProxiesInOrder(b: Build, lib: UriLib, mwi: seq<int>, opts: seq<Opt>, k: nat)
    requires RunOpts(b, lib, Initial(mwi), opts).Go? && k < |Texts(opts, ProxyOption)|
    requires ProxyText(lib, Texts(opts, ProxyOption)[k], |Proxies(lib, Texts(opts, ProxyOption)[..k])|).Some?
    ensures var (stored, ts) := (RunOpts(b, lib, Initial(mwi), opts).cfg.proxy, Texts(opts, ProxyOption));
            var n := |Proxies(lib, ts[..k])|;
            n < |stored| && stored[n] == ProxyText(lib, ts[k], n).value
  {
    hide ProxyText, RunOpts, Proxies;
    StoredLists(b, lib, mwi, opts);
    AskedInOrder(lib, Texts(opts, ProxyOption), k);
  }

  // ----- codecs -----

  /** The codecs in force after any command line are usable by the build, except that the
      default needs g711 to be in it: registration meets an unknown codec exactly when no
      --codec was given and the build lacks g711. */
  lemma CodecsInForce(b: Build, lib: UriLib, mwi: seq<int>, opts: seq<Opt>, init: Codec -> bool)
    requires RunOpts(b, lib, Initial(mwi), opts).Go?
    ensures var media := RunOpts(b, lib, Initial(mwi), opts).cfg.media;
            && (media.Listed? ==>
                 (Registering(b, media.codecs, init) == UnknownCodec <==> Last(opts, CodecText) == None && !b.g711))
            && (media == Everything <==>
                 Last(opts, CodecText).Some? && Select(b, Last(opts, CodecText).value) == Everything)
            && media != Rejected
  {
    LastWins(b, lib, Initial(mwi), opts);
    NeverRejected(b, lib, Initial(mwi), opts);
    match Last(opts, CodecText)
    case None => assert [G711][1..] == [];
    case Some(t) =>
      if Select(b, t).Listed? {
        AcceptedIsUsable(b, t, init);
      }
  }

  /** A build and a command line that meet the unknown codec: everything but g711, and no
      --codec. */
  lemma DefaultNotInBuild(lib: UriLib, mwi: seq<int>, init: Codec -> bool)
    ensures var b := Build(true, true, true, false, true, true, true, true, true, true, true, true, true);
            var out := RunOpts(b, lib, Initial(mwi), []);
            out.Go? && out.cfg.media.Listed? && Registering(b, out.cfg.media.codecs, init) == UnknownCodec
  {
  }

  lemma {:induction false} NeverRejected(b: Build, lib: UriLib, c: Config, opts: seq<Opt>)
    requires RunOpts(b, lib, c, opts).Go? && c.media != Rejected
    ensures RunOpts(b, lib, c, opts).cfg.media != Rejected
    decreases opts
  {
    hide Select, MwiCounts, Trim, WithEvent, WithContentType, WithHeader, WithProxy;
    if opts != [] {
      StepSets(b, lib, c, opts[0]);
      NeverRejected(b, lib, Step(b, lib, c, opts[0]).cfg, opts[1..]);
    }
  }

  // ----- message counts -----

  function CountTexts(ns: seq<int>): seq<string> {
    seq(|ns|, i requires 0 <= i < |ns| => PrintInt(ns[i]))
  }

  /** Four counts, padded with zeros. */
  function Padded(ns: seq<int>): seq<int> {
    seq(4, i requires 0 <= i => if i < |ns| then ns[i] else 0)
  }

  /** Round trip: counts written in a comma list are stored in order, padded with zeros to
      four, negative ones included; counts after the fourth are ignored. */
  lemma MwiRoundTrip(ns: seq<int>)
    requires forall n | n in ns :: IsInt32(n)
    ensures MwiCounts(Join(CountTexts(ns), ',')) == Padded(ns)
  {
    var ts := CountTexts(ns);
    forall i | 0 <= i < |ns| ensures IsField(ts[i], ',') && ToInt32(StrToL(ts[i])) == ns[i] {
      assert ns[i] in ns;
      assert ts[i] + "" == ts[i];
      ReadPrinted(ns[i], "");
      InRange(ns[i]);
    }
    FieldsOfJoin(ts, ',');
  }

  /** A count is stored as written exactly when it fits an `int`. */
  lemma MwiCountKept(n: int)
    ensures MwiCounts(PrintInt(n)) == [n, 0, 0, 0] <==> IsInt32(n)
  {
    var ts := [PrintInt(n)];
    assert IsField(ts[0], ',') && Join(ts, ',') == PrintInt(n) == PrintInt(n) + "";
    FieldsOfJoin(ts, ',');
    ReadPrinted(n, "");
    InRange(n);
    assert MwiCounts(PrintInt(n)) == [ToInt32(n), 0, 0, 0];
  }

  // ----- media types -----

  /** A type and a subtype written with a slash between them are stored apart; what a further
      slash starts is ignored.  Without a slash the type is application. */
  lemma MediaTypeRoundTrip(kind: string, subtype: string, more: string)
    requires IsField(kind, '/') && IsField(subtype, '/') && (more == "" || more[0] == '/')
    ensures OtherMediaType(kind + ("/" + (subtype + more))) == (kind, subtype)
    ensures OtherMediaType(subtype) == ("application", subtype)
  {
    hide Find;
    var (s, k) := (kind + ("/" + (subtype + more)), |kind|);
    assert s[0..k] == kind && s[k] == '/' && s[k + 1..k + 1 + |subtype|] == subtype;
    assert s[0] == kind[0] && s[k + 1] == subtype[0];
    FindIs(s, '/', 0, k);
    assert SkipDelim(s, '/', k) == k + 1;
    assert more != "" ==> s[k + 1 + |subtype|] == more[0];
    FindIs(s, '/', k + 1, k + 1 + |subtype|);
  }

  /** The field at place `i`, if there are so many. */
  function FieldAt(fs: seq<string>, i: nat): string {
    if i < |fs| then fs[i] else ""
  }

  /** Any other media type text: type and subtype are its first two non-empty parts between
      slashes, and empty where there are fewer. */
  lemma MediaTypeParts(v: string)
    requires '/' in v
    ensures var parts := Fields(v, '/');
            OtherMediaType(v) == (FieldAt(parts, 0), FieldAt(parts, 1))
  {
    hide Find, Fields;
    FirstCall(v, '/');
    var at := StrTok(v, '/', 0);
    NextField(v, '/', at.0 + |at.1|);
    var at' := StrTok(v, '/', at.0 + |at.1|);
    if at.0 != |v| {
      assert Fields(v, '/') == [at.1] + Pending(v, '/', at');
    }
  }
}
