/** NOTIFY: the Event header and the message summary body (src/mod/notify.c). */
module Notify {
  import opened PjLib
  import opened Lists
  import opened Decimal
  import opened Keywords
  import opened Codecs
  import opened Options
  import opened Settings
  import opened CommandLine
  import opened Requests

  // ----- the Event header -----

  /** The event type a presence body settles when no event was given. */
  function SettledEvent(c: Config): EventType {
    if c.ctype in {CtPidf, CtXpidf} && c.presEv == EvUnknown then EvPresence else c.presEv
  }

  function EventValue(c: Config): string {
    match SettledEvent(c)
    case EvUnknown => "keep-alive"
    case EvPresence => "presence"
    case EvMwi => "message-summary"
    case EvOther => c.event
  }

  method AddEventHdr(tdata: TxData, app: App)
    requires app.Valid()
    modifies tdata, app`presEv
    ensures app.Valid() && app.Cfg() == old(app.Cfg()).(presEv := SettledEvent(old(app.Cfg())))
    ensures tdata.hdrs == old(tdata.hdrs) + [Header("Event", EventValue(old(app.Cfg())))]
  {
    if (app.ctype == CtPidf || app.ctype == CtXpidf) && app.presEv == EvUnknown {
      app.presEv := EvPresence;
    }
    var hvalue;
    if app.presEv == EvUnknown {
      hvalue := "keep-alive";
    } else if app.presEv == EvPresence {
      hvalue := "presence";
    } else if app.presEv == EvMwi {
      hvalue := "message-summary";
    } else {
      hvalue := app.event;
    }
    tdata.AddHdr(Header("Event", hvalue));
  }

  /** An -E value with its aliases resolved. */
  function Canonical(v: string): string {
    if HasPrefix(v, "presence") then "presence"
    else if HasPrefix(v, "mwi") || HasPrefix(v, "message-summary") then "message-summary"
    else v
  }

  predicate PresenceBody(t: string) {
    HasPrefix(Trim(t), "pidf") || HasPrefix(Trim(t), "xpidf")
  }

  /** The Event value of an accepted command line depends only on whether -M was given, the
      last -E and the last -C: -M decides, else -E, else a presence body, else keep-alive. */
  lemma EventDecided(b: Build, lib: UriLib, mwi: seq<int>, opts: seq<Opt>, left: seq<string>, c: Config)
    requires GetOpts(b, lib, Initial(mwi), opts, left) == Returned(true, c) && c.cmd !in {Help, Version}
    ensures EventValue(c) ==
            if Last(opts, MwiText).Some? then "message-summary"
            else match Last(opts, EventText)
              case Some(e) => Canonical(Trim(e))
              case None =>
                match Last(opts, TypeText)
                case Some(t) => if PresenceBody(t) then "presence" else "keep-alive"
                case None => "keep-alive"
  {
    hide GetOpts, RunOpts, Trim, HasPrefix, Last;
    Accepted(b, lib, mwi, opts, left, c);
    LastWins(b, lib, Initial(mwi), opts);
    LastEventWins(b, lib, Initial(mwi), opts);
  }

  // ----- the message summary -----

  /** Line 3 of the body: new/old (urgent new/urgent old). */
  function VoiceLine(n: seq<int>): string
    requires |n| == 4
  {
    "Voice-Message:" + (" " + (PrintInt(n[0]) + ("/" + (PrintInt(n[1]) + (" (" +
      (PrintInt(n[2]) + ("/" + (PrintInt(n[3]) + ")\r"))))))))
  }

  function WaitingLine(n: int): string {
    "Messages-Waiting: " + (if n > 0 then "yes" else "no") + "\r"
  }

  function AccountLine(acc: string): string {
    "Message-Account: " + acc + "\r"
  }

  /** The body as `snprintf` formats it. */
  function MwiBody(mwi: seq<int>, acc: string): string
    requires |mwi| == 4
  {
    WaitingLine(mwi[0]) + ("\n" + (AccountLine(acc) + ("\n" + (VoiceLine(mwi) + ("\n" + "")))))
  }

  const SIPMSG_BODY_LEN := 2048

  /** `snprintf` into a buffer: as much as fits before a final NUL; the result is the length
      of the whole text. */
  method Snprintf(buf: array<char>, text: string) returns (len: nat)
    requires buf.Length > 0
    modifies buf
    ensures len == |text|
    ensures |text| < buf.Length ==> buf[..|text|] == text
    ensures |text| >= buf.Length ==> buf[..] == text[..buf.Length - 1] + ['\0']
  {
    len := |text|;
    var n := if |text| < buf.Length then |text| else buf.Length - 1;
    for i := 0 to n
      invariant buf[..i] == text[..i]
    {
      buf[i] := text[i];
    }
    buf[n] := '\0';
    assert text[..|text|] == text;
  }

  /** The text a message is given by a buffer and a length: past the buffer, whatever stands there. */
  function Handed(buf: seq<char>, slen: nat, beyond: string): string
    requires slen <= |buf| + |beyond|
  {
    (buf + beyond)[..slen]
  }

  /** A body after its way through the buffer. */
  function Delivered(body: string, beyond: string): string
    requires |body| <= SIPMSG_BODY_LEN + |beyond|
  {
    if |body| < SIPMSG_BODY_LEN then body
    else (body[..SIPMSG_BODY_LEN - 1] + ['\0'] + beyond)[..|body|]
  }

  /** The first `slen` characters of the buffer are the body. */
  ghost predicate Intact(buf: seq<char>, slen: nat, body: string) {
    slen <= |buf| && buf[..slen] == body
  }

  /** The characters of a body that are not the account or a count. */
  function FixedLength(waiting: int): nat {
    if waiting > 0 then 64 else 63
  }

  function Digits(mwi: seq<int>): nat
    requires |mwi| == 4
  {
    |PrintInt(mwi[0])| + |PrintInt(mwi[1])| + |PrintInt(mwi[2])| + |PrintInt(mwi[3])|
  }

  lemma BodyLength(mwi: seq<int>, acc: string)
    requires |mwi| == 4
    ensures |MwiBody(mwi, acc)| == FixedLength(mwi[0]) + Digits(mwi) + |acc|
  {
    hide PrintInt;
  }

  /** The body is given to the message as a buffer and a length; they hold the whole body
      exactly when account and counts leave it shorter than the buffer. */
  method AddMwiBody(app: App) returns (buf: array<char>, slen: nat)
    requires app.Valid() && app.isMwi
    ensures fresh(buf) && buf.Length == 2048
    ensures slen == |MwiBody(app.Cfg().mwi, app.Cfg().mwiAcc)|
    ensures var (mwi, acc) := (app.Cfg().mwi, app.Cfg().mwiAcc);
            Intact(buf[..], slen, MwiBody(mwi, acc)) <==> FixedLength(mwi[0]) + Digits(mwi) + |acc| < 2048
    ensures forall beyond: string | slen <= buf.Length + |beyond| ::
              Handed(buf[..], slen, beyond) == Delivered(MwiBody(app.Cfg().mwi, app.Cfg().mwiAcc), beyond)
  {
    hide WaitingLine, AccountLine, VoiceLine, FixedLength, Digits;
    BodyLength(app.mwi[..], app.mwiAcc);
    buf := new char[SIPMSG_BODY_LEN];
    var text := MwiBody(app.mwi[..], app.mwiAcc);
    slen := Snprintf(buf, text);
    assert text[|text| - 1] == '\n';
    hide MwiBody;
    if slen < buf.Length {
      assert buf[..][..slen] == buf[..slen];
      assert forall beyond: string :: (buf[..] + beyond)[..slen] == text;
    } else if slen == buf.Length {
      assert buf[..][slen - 1] == '\0';
      assert buf[..][..slen] == buf[..];
    }
  }

  // A reader of the body: it cuts the text at line ends, checks the labels and takes the values.

  /** The text after the first `d`. */
  function After(s: string, d: char): string {
    var i := Find(s, d, 0);
    if i == |s| then "" else s[i + 1..]
  }

  /** The value of a line that starts with `tag` and ends in a carriage return. */
  function ValueOf(line: string, tag: string): Option<string> {
    if tag <= line && |tag| < |line| && line[|line| - 1] == '\r' then Some(line[|tag|..|line| - 1]) else None
  }

  function ReadVoice(a: string): seq<int> {
    var b := After(a, '/');
    var c := After(b, '(');
    var d := After(c, '/');
    [StrToL(a), StrToL(b), StrToL(c), StrToL(d)]
  }

  function ReadFlag(v: string): Option<bool> {
    if v == "yes" then Some(true) else if v == "no" then Some(false) else None
  }

  /** The waiting flag, the account and the counts of a body of three lines with their labels. */
  function ReadBody(body: string): Option<(bool, string, seq<int>)> {
    var lines := Split(body, '\n');
    if |lines| != 4 || lines[3] != "" then None
    else
      match (ValueOf(lines[0], "Messages-Waiting: "), ValueOf(lines[1], "Message-Account: "),
             ValueOf(lines[2], "Voice-Message: "))
      case (Some(flag), Some(acc), Some(voice)) =>
        (match ReadFlag(flag) case None => None case Some(waiting) => Some((waiting, acc, ReadVoice(voice))))
      case _ => None
  }

  lemma LineRead(tag: string, value: string)
    ensures ValueOf(tag + value + "\r", tag) == Some(value)
  {
    var line := tag + value + "\r";
    assert line[..|tag|] == tag && line[|tag|..|line| - 1] == value;
  }

  lemma AfterIs(p: string, rest: string, d: char)
    requires d !in p && rest != "" && rest[0] == d
    ensures After(p + rest, d) == rest[1..]
  {
    var s := p + rest;
    assert s[0..|p|] == p && s[|p|] == d && s[|p| + 1..] == rest[1..];
    FindIs(s, d, 0, |p|);
  }

  /** A number in front of a non-digit is read, and the text after the next `d` found. */
  lemma ReadField(n: int, gap: string, rest: string, d: char)
    requires !IsDigit(d) && d != '-' && (gap == "" || (!IsDigit(gap[0]) && d !in gap))
    ensures var s := PrintInt(n) + (gap + ([d] + rest));
            StrToL(s) == n && After(s, d) == rest
  {
    var s := PrintInt(n) + (gap + ([d] + rest));
    assert (gap + ([d] + rest))[0] == if gap == "" then d else gap[0];
    ReadPrinted(n, gap + ([d] + rest));
    assert s == (PrintInt(n) + gap) + ([d] + rest);
    AfterIs(PrintInt(n) + gap, [d] + rest, d);
  }

  lemma VoiceRead(n: seq<int>)
    requires |n| == 4
    ensures ValueOf(VoiceLine(n), "Voice-Message: ").Some?
    ensures ReadVoice(ValueOf(VoiceLine(n), "Voice-Message: ").value) == n
  {
    hide PrintInt, After, StrToL, ValueOf;
    var d := PrintInt(n[3]) + ")";
    var c := PrintInt(n[2]) + ("/" + d);
    var b := PrintInt(n[1]) + (" " + ("(" + c));
    var a := PrintInt(n[0]) + ("/" + b);
    assert " (" + c == " " + ("(" + c);
    assert VoiceLine(n) == "Voice-Message: " + a + "\r";
    LineRead("Voice-Message: ", a);
    assert "" + ("/" + b) == "/" + b && "" + ("/" + d) == "/" + d && "" + (")" + "") == ")";
    ReadField(n[0], "", b, '/');
    ReadField(n[1], " ", c, '(');
    ReadField(n[2], "", d, '/');
    ReadField(n[3], "", "", ')');
  }

  lemma SplitLine(line: string, more: string, d: char)
    requires d !in line
    ensures Split(line + ([d] + more), d) == [line] + Split(more, d)
  {
    SplitRun(line, [d] + more, d);
    assert ([d] + more)[1..] == more;
    assert line + "" == line;
  }

  lemma ThreeLines(l0: string, l1: string, l2: string)
    requires '\n' !in l0 && '\n' !in l1 && '\n' !in l2
    ensures Split(l0 + ("\n" + (l1 + ("\n" + (l2 + ("\n" + ""))))), '\n') == [l0, l1, l2, ""]
  {
    SplitLine(l2, "", '\n');
    SplitLine(l1, l2 + ("\n" + ""), '\n');
    SplitLine(l0, l1 + ("\n" + (l2 + ("\n" + ""))), '\n');
  }

  lemma WaitingRead(n: int)
    ensures '\n' !in WaitingLine(n)
    ensures ValueOf(WaitingLine(n), "Messages-Waiting: ") == Some(if n > 0 then "yes" else "no")
  {
    LineRead("Messages-Waiting: ", if n > 0 then "yes" else "no");
  }

  lemma AccountRead(acc: string)
    requires '\n' !in acc
    ensures '\n' !in AccountLine(acc) && ValueOf(AccountLine(acc), "Message-Account: ") == Some(acc)
  {
    hide ValueOf;
    NotInConcat("Message-Account: ", acc, '\n');
    NotInConcat("Message-Account: " + acc, "\r", '\n');
    LineRead("Message-Account: ", acc);
  }

  lemma NotInConcat(a: string, b: string, c: char)
    requires c !in a && c !in b
    ensures c !in a + b
  {
  }

  lemma NumberThen(n: int, gap: string, rest: string)
    requires '\n' !in gap && '\n' !in rest
    ensures '\n' !in PrintInt(n) + (gap + rest)
  {
    assert '\n' !in PrintInt(n);
    NotInConcat(gap, rest, '\n');
    NotInConcat(PrintInt(n), gap + rest, '\n');
  }

  lemma VoiceOneLine(n: seq<int>)
    requires |n| == 4
    ensures '\n' !in VoiceLine(n)
  {
    hide PrintInt;
    var d := PrintInt(n[3]) + ")\r";
    assert d == PrintInt(n[3]) + ("" + ")\r");
    NumberThen(n[3], "", ")\r");
    var c := PrintInt(n[2]) + ("/" + d);
    NumberThen(n[2], "/", d);
    var b := PrintInt(n[1]) + (" (" + c);
    NumberThen(n[1], " (", c);
    NumberThen(n[0], "/", b);
    NotInConcat(" ", PrintInt(n[0]) + ("/" + b), '\n');
    NotInConcat("Voice-Message:", " " + (PrintInt(n[0]) + ("/" + b)), '\n');
  }

  /** Reading a body back gives what was put into it, for any account without a line end and
      any four counts, negative ones included. */
  lemma BodyRoundTrip(mwi: seq<int>, acc: string)
    requires |mwi| == 4 && '\n' !in acc
    ensures ReadBody(MwiBody(mwi, acc)) == Some((mwi[0] > 0, acc, mwi))
  {
    hide WaitingLine, AccountLine, VoiceLine, ReadVoice, ValueOf;
    WaitingRead(mwi[0]);
    AccountRead(acc);
    VoiceOneLine(mwi);
    VoiceRead(mwi);
    ThreeLines(WaitingLine(mwi[0]), AccountLine(acc), VoiceLine(mwi));
  }

  /** What a body that went through the buffer tells its reader, whatever stands past the buffer. */
  ghost predicate Tells(body: string, told: (bool, string, seq<int>)) {
    forall beyond: string | |body| <= SIPMSG_BODY_LEN + |beyond| :: ReadBody(Delivered(body, beyond)) == Some(told)
  }

  lemma FewerLines(kept: string, lost: string, filled: string)
    requires lost != "" && lost[|lost| - 1] == '\n' && '\n' !in filled
    ensures |Split(kept + filled, '\n')| < |Split(kept + lost, '\n')|
  {
    hide Split;
    PieceCount(kept + lost, '\n');
    PieceCount(kept + filled, '\n');
    assert '\n' in lost;
  }

  lemma LineEnds(mwi: seq<int>, acc: string)
    requires |mwi| == 4 && '\n' !in acc
    ensures |Split(MwiBody(mwi, acc), '\n')| == 4
    ensures MwiBody(mwi, acc)[|MwiBody(mwi, acc)| - 1] == '\n'
  {
    hide WaitingLine, AccountLine, VoiceLine, Split;
    WaitingRead(mwi[0]);
    AccountRead(acc);
    VoiceOneLine(mwi);
    ThreeLines(WaitingLine(mwi[0]), AccountLine(acc), VoiceLine(mwi));
  }

  /** A body cut by the buffer has lost a line end. */
  lemma CutBody(mwi: seq<int>, acc: string, beyond: string)
    requires |mwi| == 4 && '\n' !in acc && '\n' !in beyond
    requires |MwiBody(mwi, acc)| == SIPMSG_BODY_LEN + |beyond|
    ensures ReadBody(Delivered(MwiBody(mwi, acc), beyond)) == None
  {
    hide MwiBody, Split, ReadVoice, ReadFlag, ValueOf;
    var body := MwiBody(mwi, acc);
    var (kept, lost) := (body[..SIPMSG_BODY_LEN - 1], body[SIPMSG_BODY_LEN - 1..]);
    LineEnds(mwi, acc);
    FewerLines(kept, lost, ['\0'] + beyond);
    assert body == kept + lost;
    assert Delivered(body, beyond) == kept + (['\0'] + beyond);
  }

  /** The message tells waiting flag, account and counts exactly when the body is shorter than
      the buffer. */
  lemma BodyTold(mwi: seq<int>, acc: string)
    requires |mwi| == 4 && '\n' !in acc
    ensures Tells(MwiBody(mwi, acc), (mwi[0] > 0, acc, mwi)) <==>
            FixedLength(mwi[0]) + Digits(mwi) + |acc| < 2048
  {
    hide ReadBody, MwiBody, FixedLength, Digits;
    var body := MwiBody(mwi, acc);
    BodyLength(mwi, acc);
    if |body| < SIPMSG_BODY_LEN {
      BodyRoundTrip(mwi, acc);
    } else {
      CutBody(mwi, acc, seq(|body| - SIPMSG_BODY_LEN, _ => '\0'));
    }
  }

  /** From the command line to the wire and back: the counts of the last -M, padded to four,
      are the ones the message tells, together with the account, exactly when they fit the buffer. */
  lemma SummarySent(b: Build, lib: UriLib, mwi: seq<int>, opts: seq<Opt>, left: seq<string>, c: Config, ns: seq<int>)
    requires GetOpts(b, lib, Initial(mwi), opts, left) == Returned(true, c) && c.cmd !in {Help, Version}
    requires Last(opts, MwiText) == Some(Join(CountTexts(ns), ','))
    requires (forall n | n in ns :: IsInt32(n)) && '\n' !in c.mwiAcc
    ensures c.isMwi && |c.mwi| == 4
    ensures Tells(MwiBody(c.mwi, c.mwiAcc), (Padded(ns)[0] > 0, c.mwiAcc, Padded(ns))) <==>
            FixedLength(Padded(ns)[0]) + Digits(Padded(ns)) + |c.mwiAcc| < 2048
  {
    hide GetOpts, RunOpts, Last, Trim, MwiCounts, ReadBody, MwiBody, Tells, FixedLength, Digits;
    Accepted(b, lib, mwi, opts, left, c);
    LastWins(b, lib, Initial(mwi), opts);
    MwiRoundTrip(ns);
    BodyTold(c.mwi, c.mwiAcc);
  }

  /** The account told is the last --mwi-acc, or the destination when that is missing or blank. */
  lemma AccountTold(b: Build, lib: UriLib, mwi: seq<int>, opts: seq<Opt>, left: seq<string>, c: Config)
    requires GetOpts(b, lib, Initial(mwi), opts, left) == Returned(true, c) && c.cmd !in {Help, Version} && c.isMwi
    ensures var acc := match Last(opts, AccountText) case Some(t) => Trim(t) case None => "";
            c.mwiAcc == if acc == "" then GetOr(c.dest, "") else acc
  {
    hide GetOpts, RunOpts, Last, Trim;
    Accepted(b, lib, mwi, opts, left, c);
    LastWins(b, lib, Initial(mwi), opts);
  }

  /** A command line whose body does not fit: a NOTIFY with -M 0, any -u, and an account of
      1981 characters or more without white space at its ends. */
  lemma LongAccount(b: Build, lib: UriLib, mwi: seq<int>, acc: string, user: string, dest: string)
    requires |acc| >= 1981 && !IsSpace(acc[0]) && !IsSpace(acc[|acc| - 1])
    ensures var opts := [SetMwi("0"), SetMwiAcc(acc), SetUsername(user)];
            var out := GetOpts(b, lib, Initial(mwi), opts, ["notify", dest]);
            && out.Returned? && out.success && out.cfg.cmd == Keywords.Notify && out.cfg.isMwi && |out.cfg.mwi| == 4
            && |MwiBody(out.cfg.mwi, out.cfg.mwiAcc)| >= 2048
  {
    var c := Initial(mwi).(mwi := MwiCounts("0"), isMwi := true, mwiAcc := acc, username := Some(Trim(user)));
    assert Trim(acc) == acc;
    hide Trim, MwiCounts, MwiBody, Finish, WithArgs, RunOpts, FixedLength, Digits;
    ThreeOptions(b, lib, Initial(mwi), "0", acc, user);
    NotifyTo(lib, c, dest);
    BodyLength(c.mwi, acc);
    EnoughDigits(c.mwi);
  }

  lemma ThreeOptions(b: Build, lib: UriLib, c: Config, counts: string, acc: string, user: string)
    ensures RunOpts(b, lib, c, [SetMwi(counts), SetMwiAcc(acc), SetUsername(user)]) ==
            Go(c.(mwi := MwiCounts(counts), isMwi := true, mwiAcc := Trim(acc), username := Some(Trim(user))))
  {
    hide Trim, MwiCounts;
    var rest := [SetMwiAcc(acc), SetUsername(user)];
    var c1 := c.(mwi := MwiCounts(counts), isMwi := true);
    var c2 := c1.(mwiAcc := Trim(acc));
    assert rest[1..] == [SetUsername(user)] && [SetUsername(user)][1..] == [];
    assert RunOpts(b, lib, c2, [SetUsername(user)]) == RunOpts(b, lib, c2.(username := Some(Trim(user))), []);
    assert RunOpts(b, lib, c1, rest) == RunOpts(b, lib, c2, [SetUsername(user)]);
    assert ([SetMwi(counts), SetMwiAcc(acc), SetUsername(user)])[1..] == rest;
  }

  lemma NotifyTo(lib: UriLib, c: Config, dest: string)
    requires c.username.Some? && c.isMwi && c.mwiAcc != ""
    ensures var out := Finish(lib, WithArgs(c, ["notify", dest]));
            out.Returned? && out.success && out.cfg.cmd == Keywords.Notify && out.cfg.isMwi
            && out.cfg.mwi == c.mwi && out.cfg.mwiAcc == c.mwiAcc
  {
    hide ParseCommandStr;
    SelectedByWord("notify");
    SelfPrefix("notify");
    assert HasPrefix("notify", WordOf(Keywords.Notify)) && HasWord(Keywords.Notify);
    assert WithArgs(c, ["notify", dest]) == c.(cmd := Keywords.Notify, dest := Some(dest));
  }

  lemma EnoughDigits(mwi: seq<int>)
    requires |mwi| == 4
    ensures FixedLength(mwi[0]) + Digits(mwi) >= 67
  {
  }
}
