/** From a whole command line to the configuration a command works with, or to the way it is
    refused (src/app/getopts.c). */
module CommandLine {
  import opened PjLib
  import opened Lists
  import opened Keywords
  import opened Codecs
  import opened Options
  import opened Settings

  /** What parsing the options left is kept by the last step, which lets -M decide the event
      and content types and fills in the account, the command and the destination. */
  ghost predicate Completes(c0: Config, c: Config) {
    && c.hdrs == c0.hdrs && c.proxy == c0.proxy && c.userAgent == c0.userAgent && c.media == c0.media
    && c.mwi == c0.mwi && c.isMwi == c0.isMwi && c.event == c0.event
    && c.referTo == c0.referTo && c.body == c0.body && c.cancel == c0.cancel
    && c.localPort == c0.localPort && c.rtpPort == c0.rtpPort && c.expires == c0.expires
    && c.presEv == (if c.isMwi then EvMwi else c0.presEv)
    && c.ctype == (if c.isMwi then CtMwi else c0.ctype)
    && c.mediaType == (if c.isMwi then ("application", "simple-message-summary") else c0.mediaType)
    && c.mwiAcc == (if c.isMwi && c0.mwiAcc == "" then GetOr(c.dest, "") else c0.mwiAcc)
  }

  /** What the commands rely on: a REFER has a target, a MESSAGE a body, and a destination
      comes with a user name. */
  predicate Usable(c: Config) {
    && (c.cmd == Refer ==> c.referTo.Some?)
    && (c.cmd == Message ==> c.body.Some?)
    && (c.dest.Some? ==> c.username.Some?)
  }

  lemma Finishes(lib: UriLib, c0: Config, left: seq<string>)
    requires Finish(lib, WithArgs(c0, left)).Returned?
    ensures var c := Finish(lib, WithArgs(c0, left)).cfg;
            Completes(c0, c) && Usable(c)
  {
    hide ParseCommandStr;
    var c1 := WithArgs(c0, left);
    assert Completes(c0, FollowMwi(c1));
  }

  /** A command line that is accepted, asking for neither help nor version, was parsed to the
      end. */
  lemma Accepted(b: Build, lib: UriLib, mwi: seq<int>, opts: seq<Opt>, left: seq<string>, c: Config)
    requires GetOpts(b, lib, Initial(mwi), opts, left) == Returned(true, c) && c.cmd !in {Help, Version}
    ensures RunOpts(b, lib, Initial(mwi), opts).Go?
    ensures Completes(RunOpts(b, lib, Initial(mwi), opts).cfg, c) && Usable(c)
  {
    hide Finish, WithArgs, Completes, Usable, Step;
    Halts(b, lib, Initial(mwi), opts);
    if RunOpts(b, lib, Initial(mwi), opts).Go? {
      Finishes(lib, RunOpts(b, lib, Initial(mwi), opts).cfg, left);
    }
  }

  /** The command and the destination come from the remaining arguments alone: with two or
      more, the command is the one whose word starts the first; with fewer it is PING.  The
      user is the last -u, or else the user part of the destination. */
  lemma ArgumentsDecide(b: Build, lib: UriLib, mwi: seq<int>, opts: seq<Opt>, left: seq<string>, c: Config)
    requires GetOpts(b, lib, Initial(mwi), opts, left) == Returned(true, c) && c.cmd !in {Help, Version}
    ensures |left| < 2 ==> c.cmd == Ping
    ensures |left| >= 2 ==> forall k | HasWord(k) :: c.cmd == k <==> HasPrefix(left[0], WordOf(k))
    ensures c.dest == if left == [] then None else Some(left[if |left| == 1 then 0 else 1])
    ensures c.username == match Last(opts, UserText)
              case Some(t) => Some(Trim(t))
              case None => if left == [] then None else UserOf(lib.parse(c.dest.value))
  {
    hide HasPrefix, WordOf, Trim, Last, RunOpts;
    Accepted(b, lib, mwi, opts, left, c);
    LastUserWins(b, lib, Initial(mwi), opts);
    if |left| >= 2 {
      SelectedByWord(left[0]);
    }
  }

  function UserOf(uri: Option<Uri>): Option<string> {
    match uri case None => None case Some(u) => Some(u.user)
  }

  /** Parsing that returns early, successfully, was asked for help or version. */
  lemma {:induction false} Halts(b: Build, lib: UriLib, c: Config, opts: seq<Opt>)
    ensures var out := RunOpts(b, lib, c, opts);
            out.Returned? && out.success ==> out.cfg.cmd in {Help, Version}
    decreases opts
  {
    hide ParseHeader, ProxyText, Select, WithEvent, WithContentType, MwiCounts, Trim, PortValue, ExpiresValue;
    if opts != [] && Step(b, lib, c, opts[0]).Go? {
      Halts(b, lib, Step(b, lib, c, opts[0]).cfg, opts[1..]);
    }
  }

  /** A command line makes no write outside the arrays exactly when, before the first option
      that ends the parsing, at most 12 -H options and at most 12 accepted -R options stand. */
  lemma CommandLineWithinArrays(b: Build, lib: UriLib, mwi: seq<int>, opts: seq<Opt>, left: seq<string>)
    ensures var ps := Processed(b, opts);
            GetOpts(b, lib, Initial(mwi), opts, left) != Overrun <==>
            |Texts(ps, HeaderText)| <= 12 && |Proxies(lib, Texts(ps, ProxyOption))| <= 12
  {
    hide WithArgs, Step, Stops, Proxies;
    WithinArrays(b, lib, mwi, opts);
    if opts == [] && left == [] {
      assert RunOpts(b, lib, Initial(mwi), opts).Go?;
    }
  }

  // ----- when a command line is accepted -----

  /** The remaining arguments ask for the command of this word. */
  predicate AsksFor(left: seq<string>, word: string) {
    |left| >= 2 && Spells(left[0], word)
  }

  function DestOf(left: seq<string>): Option<string> {
    if left == [] then None else Some(left[if |left| == 1 then 0 else 1])
  }

  lemma FinishWhen(lib: UriLib, c: Config, left: seq<string>)
    requires c.cmd == Ping && c.dest == None
    ensures var out := Finish(lib, WithArgs(c, left));
            && (out.Returned? && out.success <==>
                 && (AsksFor(left, "refer") ==> c.referTo.Some?)
                 && (AsksFor(left, "message") ==> c.body.Some?)
                 && (left != [] && c.username == None ==> lib.parse(DestOf(left).value).Some?))
            && (!(out.Returned? && out.success) ==> out == Exited)
  {
    hide Spells, ParseCommandStr;
    if |left| >= 2 {
      CommandWords(left[0]);
    }
    var c1 := WithArgs(c, left);
    assert c1.dest == DestOf(left);
    assert (c1.cmd == Refer <==> AsksFor(left, "refer")) && (c1.cmd == Message <==> AsksFor(left, "message"));
  }

  /** A command line whose options go through is accepted exactly when a REFER comes with --to,
      a MESSAGE with --body, and a destination that has to give the user name, because -u does
      not, can be parsed.  Otherwise the process exits. */
  lemma AcceptedWhen(b: Build, lib: UriLib, mwi: seq<int>, opts: seq<Opt>, left: seq<string>)
    requires RunOpts(b, lib, Initial(mwi), opts).Go? && (opts != [] || left != [])
    ensures var out := GetOpts(b, lib, Initial(mwi), opts, left);
            && (out.Returned? && out.success <==>
                 && (AsksFor(left, "refer") ==> exists o | o in opts :: o.SetReferTo?)
                 && (AsksFor(left, "message") ==> exists o | o in opts :: o.SetBody?)
                 && (left != [] && (forall o | o in opts :: !o.SetUsername?) ==> lib.parse(DestOf(left).value).Some?))
            && (!(out.Returned? && out.success) ==> out == Exited)
  {
    hide RunOpts, Last, Spells, ParseCommandStr, Trim, Finish, WithArgs;
    LastTargetWins(b, lib, Initial(mwi), opts);
    LastUserWins(b, lib, Initial(mwi), opts);
    FinishWhen(lib, RunOpts(b, lib, Initial(mwi), opts).cfg, left);
    LastGiven(opts, ReferText);
    LastGiven(opts, BodyText);
    LastGiven(opts, UserText);
    assert (exists o | o in opts :: ReferText(o).Some?) <==> exists o | o in opts :: o.SetReferTo?;
    assert (exists o | o in opts :: BodyText(o).Some?) <==> exists o | o in opts :: o.SetBody?;
    assert (exists o | o in opts :: UserText(o).Some?) <==> exists o | o in opts :: o.SetUsername?;
  }

  /** Asking for nothing gives help. */
  lemma NothingAsked(b: Build, lib: UriLib, mwi: seq<int>)
    ensures GetOpts(b, lib, Initial(mwi), [], []) == Returned(true, Initial(mwi).(cmd := Help))
  {
  }

  /** How an option ends a command line, when no write has left the arrays: a header without
      colon makes it fail, -h and -V make it return with the command they name, and a port, an
      expiry or a codec list that is not accepted ends the process. */
  lemma EndedByOption(b: Build, lib: UriLib, mwi: seq<int>, opts: seq<Opt>, left: seq<string>)
    requires var ps := Processed(b, opts);
             && |Texts(ps, HeaderText)| <= 12 && |Proxies(lib, Texts(ps, ProxyOption))| <= 12
             && |ps| < |opts|
    ensures var out := GetOpts(b, lib, Initial(mwi), opts, left);
            match opts[|Processed(b, opts)|]
            case AddHeader(_) => out.Returned? && !out.success
            case AskHelp => out.Returned? && out.success && out.cfg.cmd == Help
            case AskVersion => out.Returned? && out.success && out.cfg.cmd == Version
            case _ => out == Exited
  {
    EndedBy(b, lib, mwi, opts);
    hide RunOpts, Processed, Proxies, Texts, Finish, WithArgs;
  }

  // ----- what an accepted command line configures -----

  /** Ports and expiry: the last option of each kind, or what the program starts with. */
  lemma NumbersConfigured(b: Build, lib: UriLib, mwi: seq<int>, opts: seq<Opt>, left: seq<string>, c: Config)
    requires GetOpts(b, lib, Initial(mwi), opts, left) == Returned(true, c) && c.cmd !in {Help, Version}
    ensures Some(c.localPort) == match Last(opts, LocalPortText) case None => Some(0) case Some(t) => PortValue(t)
    ensures Some(c.rtpPort) == match Last(opts, RtpPortText) case None => Some(4000) case Some(t) => PortValue(t)
    ensures Some(c.expires) == match Last(opts, ExpiresText) case None => Some(3600) case Some(t) => ExpiresValue(t)
  {
    hide GetOpts, RunOpts, Last, PortValue, ExpiresValue;
    Accepted(b, lib, mwi, opts, left, c);
    LastNumberWins(b, lib, Initial(mwi), opts);
  }

  /** The other settings: the last option of each kind, or nothing; g711 when no codec was
      asked for. */
  lemma TextsConfigured(b: Build, lib: UriLib, mwi: seq<int>, opts: seq<Opt>, left: seq<string>, c: Config)
    requires GetOpts(b, lib, Initial(mwi), opts, left) == Returned(true, c) && c.cmd !in {Help, Version}
    ensures c.referTo == match Last(opts, ReferText) case None => None case Some(t) => Some(Trim(t))
    ensures c.body == match Last(opts, BodyText) case None => None case Some(t) => Some(Trim(t))
    ensures c.userAgent == match Last(opts, AgentText) case None => "" case Some(t) => Trim(t)
    ensures c.media == match Last(opts, CodecText) case None => Listed([G711]) case Some(t) => Select(b, t)
    ensures c.cancel <==> SetCancel in opts
    ensures c.isMwi <==> Last(opts, MwiText).Some?
  {
    hide GetOpts, RunOpts, Last, Trim, Select, MwiCounts;
    Accepted(b, lib, mwi, opts, left, c);
    LastTargetWins(b, lib, Initial(mwi), opts);
    LastWins(b, lib, Initial(mwi), opts);
  }

  /** The media type of a body: that of a message summary with -M; else the one the last -C
      names or spells out; else none. */
  lemma MediaTypeDecided(b: Build, lib: UriLib, mwi: seq<int>, opts: seq<Opt>, left: seq<string>, c: Config)
    requires GetOpts(b, lib, Initial(mwi), opts, left) == Returned(true, c) && c.cmd !in {Help, Version}
    ensures c.mediaType ==
            if Last(opts, MwiText).Some? then ("application", "simple-message-summary")
            else match Last(opts, TypeText)
              case None => ("", "")
              case Some(t) =>
                var v := Trim(t);
                if HasPrefix(v, "pidf") then ("application", "pidf+xml")
                else if HasPrefix(v, "xpidf") then ("application", "xpidf+xml")
                else if HasPrefix(v, "mwi") then ("application", "simple-message-summary")
                else if '/' !in v then ("application", v)
                else (FieldAt(Fields(v, '/'), 0), FieldAt(Fields(v, '/'), 1))
  {
    hide GetOpts, RunOpts, Last, Trim, HasPrefix, OtherMediaType, Fields, FieldAt, MwiCounts;
    Accepted(b, lib, mwi, opts, left, c);
    LastWins(b, lib, Initial(mwi), opts);
    LastMediaTypeWins(b, lib, Initial(mwi), opts);
    match Last(opts, TypeText)
    case None =>
    case Some(t) => OtherType(Trim(t));
  }

  lemma OtherType(v: string)
    ensures OtherMediaType(v) ==
            if '/' !in v then ("application", v) else (FieldAt(Fields(v, '/'), 0), FieldAt(Fields(v, '/'), 1))
  {
    if '/' in v {
      MediaTypeParts(v);
    }
  }
}
