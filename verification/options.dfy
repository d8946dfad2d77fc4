/** Command-line options and the configuration they build (src/app/getopts.c).  Each option is
    a function on the configuration; the class holds the configuration in the source's fields
    and updates them in place. */
module Options {
  import opened PjLib
  import opened Lists
  import opened Codecs
  import opened Keywords

  /** The limits the guards test, which are also the sizes of the arrays. */
  const MAX_CUSTOM_HEADERS := 12
  const MAX_PROXY_HEADERS := 12

  const MAX_PORT := 65535

  datatype Header = Header(name: string, value: string)

  datatype Uri = Uri(user: string, rest: string, lr: bool)

  /** The library's URI parser and printer; both may fail. */
  datatype UriLib = UriLib(parse: string -> Option<Uri>, printUri: Uri -> Option<string>)

  datatype EventType = EvUnknown | EvPresence | EvMwi | EvOther

  datatype ContentType = CtUnknown | CtPidf | CtXpidf | CtMwi | CtOther

  datatype Config = Config(
    cmd: Command, dest: Option<string>, username: Option<string>, referTo: Option<string>, body: Option<string>,
    userAgent: string, cancel: bool, hdrs: seq<Header>, proxy: seq<string>, media: Selection,
    mwi: seq<int>, isMwi: bool, mwiAcc: string, presEv: EventType, event: string,
    ctype: ContentType, mediaType: (string, string), localPort: uint16, rtpPort: uint16, expires: int)

  /** `sippak_init`; the MWI counts are set only by -M. */
  function Initial(mwi: seq<int>): Config {
    Config(Ping, None, None, None, None, "", false, [], [], Listed([G711]),
           mwi, false, "", EvUnknown, "", CtUnknown, ("", ""), 0, 4000, 3600)
  }

  datatype Opt =
    | AddHeader(text: string)
    | AddProxy(text: string)
    | SetCodecs(text: string)
    | SetMwi(text: string)
    | SetMwiAcc(text: string)
    | SetEvent(text: string)
    | SetContentType(text: string)
    | SetUserAgent(text: string)
    | SetUsername(text: string)
    | SetReferTo(text: string)
    | SetBody(text: string)
    | SetLocalPort(text: string)
    | SetRtpPort(text: string)
    | SetExpires(text: string)
    | SetCancel
    | AskHelp
    | AskVersion
    | OtherOpt

  /** What options lead to: a configuration to go on with, a return to the caller with a
      status, the end of the process, or a write outside an array, after which the program has
      no defined behaviour and nothing is claimed of it. */
  datatype Outcome = Go(cfg: Config) | Returned(success: bool, cfg: Config) | Exited | Overrun

  function ParseHeader(text: string): Option<Header> {
    var t := TrimLeft(text);
    var d := Find(t, ':', 0);
    if d == |t| then None else Some(Header(t[..d], TrimLeft(t[d + 1..])))
  }

  function WithHeader(c: Config, text: string): Outcome {
    if |c.hdrs| > MAX_CUSTOM_HEADERS then Go(c)
    else
      match ParseHeader(text)
      case None => Returned(false, c)
      case Some(h) => if |c.hdrs| == MAX_CUSTOM_HEADERS then Overrun else Go(c.(hdrs := c.hdrs + [h]))
  }

  /** The text stored for a proxy option when `n` proxies are stored already. */
  function ProxyText(lib: UriLib, text: string, n: nat): Option<string> {
    match lib.parse(TrimLeft(text))
    case None => None
    case Some(uri) => lib.printUri(if n == 0 then uri.(lr := true) else uri)
  }

  function WithProxy(lib: UriLib, c: Config, text: string): Outcome {
    if |c.proxy| > MAX_PROXY_HEADERS then Go(c)
    else
      match ProxyText(lib, text, |c.proxy|)
      case None => Go(c)
      case Some(t) => if |c.proxy| == MAX_PROXY_HEADERS then Overrun else Go(c.(proxy := c.proxy + [t]))
  }

  function ContentTypeOf(v: string): ContentType {
    if HasPrefix(v, "pidf") then CtPidf
    else if HasPrefix(v, "xpidf") then CtXpidf
    else if HasPrefix(v, "mwi") then CtMwi
    else CtOther
  }

  function MediaTypeOf(v: string): (string, string) {
    match ContentTypeOf(v)
    case CtPidf => ("application", "pidf+xml")
    case CtXpidf => ("application", "xpidf+xml")
    case CtMwi => ("application", "simple-message-summary")
    case _ => OtherMediaType(v)
  }

  function WithContentType(c: Config, text: string): Config {
    c.(mediaType := MediaTypeOf(Trim(text)), ctype := ContentTypeOf(Trim(text)))
  }

  function OtherMediaType(v: string): (string, string) {
    if '/' !in v then ("application", v)
    else
      var (idx, tok) := StrTok(v, '/', 0);
      (tok, StrTok(v, '/', idx + |tok|).1)
  }

  /** The four counts a -M list stands for. */
  function MwiCounts(text: string): seq<int> {
    MwiOf(Fields(text, ','))
  }

  function MwiOf(fields: seq<string>): (r: seq<int>)
    ensures |r| == 4
  {
    seq(4, i requires 0 <= i => if i < |fields| then ToInt32(StrToL(fields[i])) else 0)
  }

  function EventTypeOf(v: string): EventType {
    if HasPrefix(v, "presence") then EvPresence
    else if HasPrefix(v, "mwi") || HasPrefix(v, "message-summary") then EvMwi
    else EvOther
  }

  function WithEvent(c: Config, text: string): Config {
    c.(event := Trim(text), presEv := EventTypeOf(Trim(text)))
  }

  predicate AllDigits(s: string) {
    forall i | 0 <= i < |s| :: IsDigit(s[i])
  }

  /** `atoi`: white space, then a number; its value is converted to `int`. */
  function Atoi(s: string): int {
    ToInt32(StrToL(TrimLeft(s)))
  }

  /** The port an option gives; none where the process exits. */
  function PortValue(text: string): Option<uint16> {
    if AllDigits(Trim(text)) && 1 <= Atoi(text) <= MAX_PORT then Some(Atoi(text)) else None
  }

  /** The assignment of an `int` to an `unsigned`. */
  function ExpiresValue(text: string): Option<int> {
    if AllDigits(Trim(text)) then Some(Atoi(text) % 0x1_0000_0000) else None
  }

  function Step(b: Build, lib: UriLib, c: Config, o: Opt): Outcome {
    match o
    case AddHeader(text) => WithHeader(c, text)
    case AddProxy(text) => WithProxy(lib, c, text)
    case SetCodecs(text) => if Select(b, text) == Rejected then Exited else Go(c.(media := Select(b, text)))
    case SetMwi(text) => Go(c.(mwi := MwiCounts(text), isMwi := true))
    case SetMwiAcc(text) => Go(c.(mwiAcc := Trim(text)))
    case SetEvent(text) => Go(WithEvent(c, text))
    case SetContentType(text) => Go(WithContentType(c, text))
    case SetUserAgent(text) => Go(c.(userAgent := Trim(text)))
    case SetUsername(text) => Go(c.(username := Some(Trim(text))))
    case SetReferTo(text) => Go(c.(referTo := Some(Trim(text))))
    case SetBody(text) => Go(c.(body := Some(Trim(text))))
    case SetLocalPort(text) => (match PortValue(text) case None => Exited case Some(p) => Go(c.(localPort := p)))
    case SetRtpPort(text) => (match PortValue(text) case None => Exited case Some(p) => Go(c.(rtpPort := p)))
    case SetExpires(text) => (match ExpiresValue(text) case None => Exited case Some(v) => Go(c.(expires := v)))
    case SetCancel => Go(c.(cancel := true))
    case AskHelp => Returned(true, c.(cmd := Help))
    case AskVersion => Returned(true, c.(cmd := Version))
    case OtherOpt => Go(c)
  }

  function RunOpts(b: Build, lib: UriLib, c: Config, opts: seq<Opt>): Outcome
    decreases opts
  {
    if opts == [] then Go(c)
    else
      match Step(b, lib, c, opts[0])
      case Go(c') => RunOpts(b, lib, c', opts[1..])
      case other => other
  }

  function WithArgs(c: Config, left: seq<string>): Config {
    if left == [] then c
    else if |left| == 1 then c.(dest := Some(left[0]))
    else c.(cmd := ParseCommandStr(left[0]), dest := Some(left[1]))
  }

  function FollowMwi(c: Config): Config {
    if c.isMwi then
      c.(presEv := EvMwi, mediaType := ("application", "simple-message-summary"), ctype := CtMwi,
         mwiAcc := if c.mwiAcc == "" then GetOr(c.dest, "") else c.mwiAcc)
    else c
  }

  function GetOr(o: Option<string>, default: string): string {
    match o case None => default case Some(v) => v
  }

  function Finish(lib: UriLib, c: Config): Outcome {
    if c.cmd == Refer && c.referTo == None then Exited
    else if c.cmd == Message && c.body == None then Exited
    else
      var c' := FollowMwi(c);
      if c'.username == None && c'.dest.Some? then
        match lib.parse(c'.dest.value)
        case None => Exited
        case Some(uri) => Returned(true, c'.(username := Some(uri.user)))
      else Returned(true, c')
  }

  /** `sippak_getopts` on the options of a command line and its remaining arguments. */
  function GetOpts(b: Build, lib: UriLib, c: Config, opts: seq<Opt>, left: seq<string>): Outcome {
    if opts == [] && left == [] then Returned(true, c.(cmd := Help))
    else
      match RunOpts(b, lib, c, opts)
      case Go(c') => Finish(lib, WithArgs(c', left))
      case other => other
  }

  /** Where the processing of an option leads; the configuration is that of the object.  After
      `Lost` the object only keeps its shape and says nothing about the program. */
  datatype Next = Continue | Return(success: bool) | Exit | Lost

  function OutcomeOf(next: Next, c: Config): Outcome {
    match next
    case Continue => Go(c)
    case Return(success) => Returned(success, c)
    case Exit => Exited
    case Lost => Overrun
  }

  /** The loop that steps over leading white space. */
  method SkipSpaces(s: string) returns (r: string)
    ensures r == TrimLeft(s)
  {
    var i := 0;
    while i < |s| && IsSpace(s[i])
      invariant i <= |s| && TrimLeft(s[i..]) == TrimLeft(s)
    {
      assert s[i..][1..] == s[i + 1..];
      i := i + 1;
    }
    r := s[i..];
  }

  method IsStringNumeric(text: string) returns (r: bool)
    ensures r <==> AllDigits(Trim(text))
  {
    var val := Trim(text);
    for i := 0 to |val|
      invariant AllDigits(val[..i])
    {
      if val[i] < '0' || val[i] > '9' {
        assert !IsDigit(val[i]);
        return false;
      }
    }
    assert val[..|val|] == val;
    return true;
  }

  /** `None` is the end of the process. */
  method SetPortValue(text: string) returns (port: Option<uint16>)
    ensures port == PortValue(text)
  {
    var numeric := IsStringNumeric(text);
    if !numeric {
      return None;
    }
    var value := Atoi(text);
    if value < 1 || value > MAX_PORT {
      return None;
    }
    return Some(value);
  }

  /** A counted array of fixed size, as the configuration keeps headers and proxies in. */
  class Slots<T(0)> {
    var cnt: nat
    const items: array<T>

    ghost predicate Valid()
      reads this
    {
      cnt <= items.Length
    }

    ghost function Stored(): seq<T>
      requires Valid()
      reads this, items
    {
      items[..cnt]
    }

    constructor (size: nat)
      ensures Valid() && fresh(items) && items.Length == size && Stored() == []
    {
      cnt := 0;
      items := new T[size];
    }

    /** Storing at index `cnt`; `inside` is false where that is outside the array. */
    method Add(item: T) returns (inside: bool)
      requires Valid()
      modifies this, items
      ensures Valid() && (inside <==> old(cnt) < items.Length)
      ensures Stored() == if inside then old(Stored()) + [item] else old(Stored())
    {
      if cnt == items.Length {
        return false;
      }
      items[cnt] := item;
      cnt := cnt + 1;
      return true;
    }
  }

  class App {
    const build: Build
    const lib: UriLib
    var cmd: Command
    var dest: Option<string>
    var username: Option<string>
    var referTo: Option<string>
    var body: Option<string>
    var userAgent: string
    var cancel: bool
    const hdrs: Slots<Header>
    const proxy: Slots<string>
    const media: MediaConfig
    const mwi: array<int>
    var isMwi: bool
    var mwiAcc: string
    var presEv: EventType
    var event: string
    var ctype: ContentType
    var mediaType: (string, string)
    var localPort: uint16
    var rtpPort: uint16
    var expires: int

    ghost predicate Valid()
      reads this, media, hdrs, proxy
    {
      && media.Valid() && mwi.Length == 4
      && hdrs.Valid() && hdrs.items.Length == MAX_CUSTOM_HEADERS
      && proxy.Valid() && proxy.items.Length == MAX_PROXY_HEADERS
    }

    ghost function Cfg(): Config
      requires Valid()
      reads this, media, media.codec, mwi, hdrs, hdrs.items, proxy, proxy.items
    {
      Config(cmd, dest, username, referTo, body, userAgent, cancel, hdrs.Stored(), proxy.Stored(),
             media.Selected(), mwi[..], isMwi, mwiAcc, presEv, event, ctype, mediaType, localPort, rtpPort, expires)
    }

    constructor (build: Build, lib: UriLib)
      ensures Valid() && Cfg() == Initial(mwi[..])
      ensures this.build == build && this.lib == lib
    {
      this.build, this.lib := build, lib;
      cmd, dest, username, referTo, body := Ping, None, None, None, None;
      userAgent, cancel := "", false;
      hdrs := new Slots<Header>(MAX_CUSTOM_HEADERS);
      proxy := new Slots<string>(MAX_PROXY_HEADERS);
      media := new MediaConfig();
      mwi := new int[4];
      isMwi, mwiAcc, presEv, event, ctype, mediaType := false, "", EvUnknown, "", CtUnknown, ("", "");
      localPort, rtpPort, expires := 0, 4000, 3600;
    }

    method AddCustomHeader(text: string) returns (next: Next)
      requires Valid()
      modifies hdrs, hdrs.items
      ensures Valid() && WithHeader(old(Cfg()), text) == OutcomeOf(next, Cfg())
    {
      if hdrs.cnt > MAX_CUSTOM_HEADERS {
        return Continue;
      }
      var inHeader := SkipSpaces(text);
      var delim := Find(inHeader, ':', 0);
      if delim == |inHeader| {
        return Return(false);
      }
      var value := SkipSpaces(inHeader[delim + 1..]);
      var inside := hdrs.Add(Header(inHeader[..delim], value));
      return if inside then Continue else Lost;
    }

    method AddProxyUri(text: string) returns (next: Next)
      requires Valid()
      modifies proxy, proxy.items
      ensures Valid() && WithProxy(lib, old(Cfg()), text) == OutcomeOf(next, Cfg())
    {
      if proxy.cnt > MAX_PROXY_HEADERS {
        return Continue;
      }
      var trimmed := SkipSpaces(text);
      var parsed := lib.parse(trimmed);
      if parsed == None {
        return Continue;
      }
      var uri := parsed.value;
      if proxy.cnt == 0 {
        uri := uri.(lr := true);
      }
      var printed := lib.printUri(uri);
      if printed.Some? {
        var inside := proxy.Add(printed.value);
        return if inside then Continue else Lost;
      }
      return Continue;
    }

    method SetMwiList(text: string)
      requires Valid()
      modifies this`isMwi, mwi
      ensures Valid() && Cfg() == old(Cfg()).(mwi := MwiCounts(text), isMwi := true)
    {
      hide Fields, StrTok, StrToL, ToInt32;
      for i := 0 to 4
        invariant forall k | 0 <= k < i :: mwi[k] == 0
        modifies mwi
      {
        mwi[i] := 0;
      }
      var mwiIdx := 0;
      ghost var seen := [];
      FirstCall(text, ',');
      var at := StrTok(text, ',', 0);
      while at.0 != |text| && mwiIdx < 4
        invariant at.0 + |at.1| <= |text| && (at.1 == "" <==> at.0 == |text|)
        invariant Fields(text, ',') == seen + Pending(text, ',', at)
        invariant mwiIdx == |seen| <= 4
        invariant mwi[..] == MwiOf(seen)
        modifies mwi
        decreases |text| - at.0
      {
        mwi[mwiIdx] := ToInt32(StrToL(at.1));
        mwiIdx := mwiIdx + 1;
        NextCall(text, ',', seen, at);
        seen := seen + [at.1];
        at := StrTok(text, ',', at.0 + |at.1|);
      }
      assert mwi[..] == MwiOf(Fields(text, ','));
      isMwi := true;
    }

    method SetEventType(text: string)
      requires Valid()
      modifies this`presEv, this`event
      ensures Valid() && Cfg() == WithEvent(old(Cfg()), text)
    {
      hide HasPrefix, Trim;
      var value := Trim(text);
      if HasPrefix(value, "presence") {
        presEv := EvPresence;
      } else if HasPrefix(value, "mwi") || HasPrefix(value, "message-summary") {
        presEv := EvMwi;
      } else {
        presEv := EvOther;
      }
      event := value;
    }

    method SetContentTypeOf(text: string)
      requires Valid()
      modifies this`ctype, this`mediaType
      ensures Valid() && Cfg() == WithContentType(old(Cfg()), text)
    {
      hide HasPrefix, Trim;
      var value := Trim(text);
      if HasPrefix(value, "pidf") {
        mediaType := ("application", "pidf+xml");
        ctype := CtPidf;
      } else if HasPrefix(value, "xpidf") {
        mediaType := ("application", "xpidf+xml");
        ctype := CtXpidf;
      } else if HasPrefix(value, "mwi") {
        mediaType := ("application", "simple-message-summary");
        ctype := CtMwi;
      } else {
        mediaType := OtherMediaType(value);
        ctype := CtOther;
      }
    }

    method ParseArgvLeft(left: seq<string>)
      requires Valid()
      modifies this`cmd, this`dest
      ensures Valid() && Cfg() == WithArgs(old(Cfg()), left)
    {
      if |left| == 0 {
        return;
      }
      if |left| == 1 {
        dest := Some(left[0]);
        return;
      }
      cmd := ParseCommandStr(left[0]);
      dest := Some(left[1]);
    }

    method ResetForMwi()
      requires Valid()
      modifies this`presEv, this`mediaType, this`ctype, this`mwiAcc
      ensures Valid() && Cfg() == FollowMwi(old(Cfg()))
    {
      if isMwi {
        presEv := EvMwi;
        mediaType := ("application", "simple-message-summary");
        ctype := CtMwi;
        if |mwiAcc| == 0 {
          mwiAcc := GetOr(dest, "");
        }
      }
    }

    /** `done` is false when the process exits. */
    method PostParseSetup() returns (done: bool)
      requires Valid()
      modifies this`presEv, this`mediaType, this`ctype, this`mwiAcc, this`username
      ensures Valid()
      ensures Finish(lib, old(Cfg())) == if done then Returned(true, Cfg()) else Exited
    {
      if cmd == Refer && referTo == None {
        return false;
      }
      if cmd == Message && body == None {
        return false;
      }
      ResetForMwi();
      if username == None && dest.Some? {
        var destUri := lib.parse(dest.value);
        if destUri == None {
          return false;
        }
        username := Some(destUri.value.user);
      }
      return true;
    }

    /** One option. */
    method Process(o: Opt) returns (next: Next)
      requires Valid()
      modifies this, media, media.codec, mwi, hdrs, hdrs.items, proxy, proxy.items
      ensures Valid() && Step(build, lib, old(Cfg()), o) == OutcomeOf(next, Cfg())
    {
      hide WithHeader, WithProxy, Select, MwiCounts, WithEvent, WithContentType, Trim, PortValue, ExpiresValue;
      next := Continue;
      match o
      case AddHeader(text) => next := AddCustomHeader(text);
      case AddProxy(text) => next := AddProxyUri(text);
      case SetCodecs(text) =>
        var success := media.SetMediaCodecsCfg(build, text);
        if !success {
          next := Exit;
        }
      case SetMwi(text) => SetMwiList(text);
      case SetEvent(text) => SetEventType(text);
      case SetContentType(text) => SetContentTypeOf(text);
      case SetLocalPort(_) => next := ProcessNumber(o);
      case SetRtpPort(_) => next := ProcessNumber(o);
      case SetExpires(_) => next := ProcessNumber(o);
      case SetMwiAcc(_) => ProcessText(o);
      case SetUserAgent(_) => ProcessText(o);
      case SetUsername(_) => ProcessText(o);
      case SetReferTo(_) => ProcessText(o);
      case SetBody(_) => ProcessText(o);
      case _ => next := ProcessFlag(o);
    }

    /** The options that take a number, and exit on any other text. */
    method ProcessNumber(o: Opt) returns (next: Next)
      requires Valid() && (o.SetLocalPort? || o.SetRtpPort? || o.SetExpires?)
      modifies this`localPort, this`rtpPort, this`expires
      ensures Valid() && Step(build, lib, old(Cfg()), o) == OutcomeOf(next, Cfg())
    {
      hide PortValue, AllDigits, Atoi, Trim, MediaConfig.Selected, Slots.Stored;
      if o.SetExpires? {
        var numeric := IsStringNumeric(o.text);
        if !numeric {
          return Exit;
        }
        expires := Atoi(o.text) % 0x1_0000_0000;
        return Continue;
      }
      var port := SetPortValue(o.text);
      if port == None {
        return Exit;
      }
      if o.SetLocalPort? {
        localPort := port.value;
      } else {
        rtpPort := port.value;
      }
      return Continue;
    }

    /** The options that store their text. */
    method ProcessText(o: Opt)
      requires Valid() && (o.SetMwiAcc? || o.SetUserAgent? || o.SetUsername? || o.SetReferTo? || o.SetBody?)
      modifies this`mwiAcc, this`userAgent, this`username, this`referTo, this`body
      ensures Valid() && Step(build, lib, old(Cfg()), o) == Go(Cfg())
    {
      hide Trim, MediaConfig.Selected, Slots.Stored;
      var value := Trim(o.text);
      if o.SetMwiAcc? {
        mwiAcc := value;
      } else if o.SetUserAgent? {
        userAgent := value;
      } else if o.SetUsername? {
        username := Some(value);
      } else if o.SetReferTo? {
        referTo := Some(value);
      } else {
        body := Some(value);
      }
    }

    /** The options without a text. */
    method ProcessFlag(o: Opt) returns (next: Next)
      requires Valid() && (o.SetCancel? || o.AskHelp? || o.AskVersion? || o.OtherOpt?)
      modifies this`cancel, this`cmd
      ensures Valid() && Step(build, lib, old(Cfg()), o) == OutcomeOf(next, Cfg())
    {
      hide MediaConfig.Selected, Slots.Stored;
      next := Continue;
      if o.SetCancel? {
        cancel := true;
      } else if o.AskHelp? {
        cmd := Help;
        next := Return(true);
      } else if o.AskVersion? {
        cmd := Version;
        next := Return(true);
      }
    }

    method GetOptions(opts: seq<Opt>, left: seq<string>) returns (end: Next)
      requires Valid()
      modifies this, media, media.codec, mwi, hdrs, hdrs.items, proxy, proxy.items
      ensures Valid() && GetOpts(build, lib, old(Cfg()), opts, left) == OutcomeOf(end, Cfg())
    {
      hide Finish, WithArgs, Step;
      if opts == [] && left == [] {
        cmd := Help;
        return Return(true);
      }
      var i := 0;
      while i < |opts|
        invariant i <= |opts| && Valid()
        invariant RunOpts(build, lib, old(Cfg()), opts) == RunOpts(build, lib, Cfg(), opts[i..])
      {
        assert opts[i..][1..] == opts[i + 1..];
        var next := Process(opts[i]);
        if next != Continue {
          return next;
        }
        i := i + 1;
      }
      ParseArgvLeft(left);
      var done := PostParseSetup();
      return if done then Return(true) else Exit;
    }
  }
}
