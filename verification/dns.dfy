/** Nameserver lists: the --ns option (src/app/dns.c). */
module Nameservers {
  import opened PjLib
  import opened Lists
  import opened Decimal

  const MAX_NS_COUNT := 3
  const DNS_PORT := 53

  function GetPort(server: string): int {
    var (idx, tok) := StrTok(server, ':', 0);
    var (idx', tok') := StrTok(server, ':', idx + |tok|);
    if idx' == |server| then DNS_PORT
    else
      var port := ToInt32(StrToL(tok'));
      if port == 0 then DNS_PORT else port
  }

  method GetServerIp(token: string) returns (ip: string)
    ensures ip == token[..Find(token, ':', 0)]
  {
    var idx := 0;
    while idx < |token| && token[idx] != ':'
      invariant 0 <= idx <= |token|
      invariant Find(token, ':', idx) == Find(token, ':', 0)
    {
      idx := idx + 1;
    }
    ip := token[..idx];
  }

  /** One server of the list: its host, and its port as stored in 16 bits. */
  function ParseServer(field: string): (string, uint16) {
    (field[..Find(field, ':', 0)], ToUint16(GetPort(field)))
  }

  function Min(a: nat, b: nat): nat {
    if a < b then a else b
  }

  /** The servers a list of fields stands for: the first three. */
  function ServersOf(fields: seq<string>): seq<(string, uint16)> {
    seq(Min(|fields|, MAX_NS_COUNT), i requires 0 <= i < |fields| => ParseServer(fields[i]))
  }

  /** What a nameserver list stands for. */
  function Servers(text: string): seq<(string, uint16)> {
    ServersOf(Fields(text, ','))
  }

  /** The arrays hold `servers` at their start, and past them what they held before. */
  ghost predicate Stored(servers: seq<(string, uint16)>, ns: seq<string>, ports: seq<uint16>,
                         ns0: seq<string>, ports0: seq<uint16>)
  {
    && |ns| == |ns0| >= |servers| && |ports| == |ports0| >= |servers|
    && (forall k | 0 <= k < |servers| :: ns[k] == servers[k].0 && ports[k] == servers[k].1)
    && (forall k | |servers| <= k < |ns| :: ns[k] == ns0[k])
    && (forall k | |servers| <= k < |ports| :: ports[k] == ports0[k])
  }

  method StoreServer(token: string, ns: array<string>, ports: array<uint16>, i: nat)
    requires i < ns.Length && i < ports.Length
    modifies ns, ports
    ensures ns[..] == old(ns[..])[i := ParseServer(token).0]
    ensures ports[..] == old(ports[..])[i := ParseServer(token).1]
  {
    ns[i] := GetServerIp(token);
    ports[i] := ToUint16(GetPort(token));
  }

  method ParseNameserversString(nameservers: string, ns: array<string>, ports: array<uint16>) returns (nsIdx: nat)
    requires ns.Length >= MAX_NS_COUNT && ports.Length >= MAX_NS_COUNT
    modifies ns, ports
    ensures nsIdx == |Servers(nameservers)| <= MAX_NS_COUNT
    ensures Stored(Servers(nameservers), ns[..], ports[..], old(ns[..]), old(ports[..]))
  {
    nsIdx := 0;
    ghost var seen := [];
    FirstCall(nameservers, ',');
    var at := StrTok(nameservers, ',', 0);
    while at.0 != |nameservers|
      invariant at.0 + |at.1| <= |nameservers| && (at.1 == "" <==> at.0 == |nameservers|)
      invariant Fields(nameservers, ',') == seen + Pending(nameservers, ',', at)
      invariant nsIdx == |ServersOf(seen)|
      invariant Stored(ServersOf(seen), ns[..], ports[..], old(ns[..]), old(ports[..]))
      decreases |nameservers| - at.0
    {
      NextServer(seen, at.1);
      if nsIdx < MAX_NS_COUNT {
        ghost var ns', ports' := ns[..], ports[..];
        StoreServer(at.1, ns, ports, nsIdx);
        nsIdx := nsIdx + 1;
        StoreNext(ServersOf(seen), ParseServer(at.1), ns', ports', old(ns[..]), old(ports[..]));
      }
      NextCall(nameservers, ',', seen, at);
      seen := seen + [at.1];
      at := StrTok(nameservers, ',', at.0 + |at.1|);
    }
  }

  lemma StoreNext(servers: seq<(string, uint16)>, next: (string, uint16), ns: seq<string>, ports: seq<uint16>,
                  ns0: seq<string>, ports0: seq<uint16>)
    requires Stored(servers, ns, ports, ns0, ports0) && |servers| < |ns| && |servers| < |ports|
    ensures Stored(servers + [next], ns[|servers| := next.0], ports[|servers| := next.1], ns0, ports0)
  {
  }

  lemma NextServer(seen: seq<string>, token: string)
    ensures ServersOf(seen + [token]) ==
            if |ServersOf(seen)| < MAX_NS_COUNT then ServersOf(seen) + [ParseServer(token)] else ServersOf(seen)
  {
  }

  /** A server as the documentation writes it: a host, and a port unless it is 53. */
  datatype Entry = Entry(host: string, port: int, written: bool)

  predicate WellFormed(e: Entry) {
    && e.host != "" && ',' !in e.host && ':' !in e.host
    && 1 <= e.port <= 65535
    && (!e.written ==> e.port == 53)
  }

  function EntryText(e: Entry): string
    requires WellFormed(e)
  {
    if e.written then e.host + (":" + PrintInt(e.port)) else e.host
  }

  function ListText(es: seq<Entry>): string
    requires forall e | e in es :: WellFormed(e)
  {
    Join(Texts(es), ',')
  }

  function Texts(es: seq<Entry>): seq<string>
    requires forall e | e in es :: WellFormed(e)
  {
    seq(|es|, i requires 0 <= i < |es| => EntryText(es[i]))
  }

  /** Reading "host", "host:" or "host:text" finds the host and where the port text starts. */
  lemma HostPart(host: string, suffix: string)
    requires host != "" && ':' !in host
    requires suffix == "" || suffix[0] == ':'
    ensures Find(host + suffix, ':', 0) == |host|
    ensures StrTok(host + suffix, ':', 0) == (0, host)
    ensures (host + suffix)[..|host|] == host
  {
    var s := host + suffix;
    assert s[0..|host|] == s[..|host|] == host;
    assert suffix != "" ==> s[|host|] == suffix[0];
    assert SkipDelim(s, ':', 0) == 0 by { assert s[0] == host[0]; }
    FindIs(s, ':', 0, |host|);
  }

  lemma PortPart(host: string, digits: string)
    requires host != "" && ':' !in host
    requires digits != "" && ':' !in digits
    ensures StrTok(host + (":" + digits), ':', |host|) == (|host| + 1, digits)
  {
    var s, p := host + (":" + digits), |host| + 1;
    assert s[|host|] == ':' && s[p] == digits[0];
    assert s[p..|s|] == digits;
    FindIs(s, ':', p, |s|);
    assert SkipDelim(s, ':', |host|) == p;
  }

  /** The port stored for a number: it is read into an `int`, 0 becomes 53, and the low 16
      bits are kept. */
  function StoredPort(v: int): uint16 {
    if v % 0x1_0000_0000 == 0 then 53 else ToUint16(v)
  }

  lemma Wrap(v: int)
    ensures ToInt32(v) == 0 <==> v % 0x1_0000_0000 == 0
    ensures ToUint16(ToInt32(v)) == ToUint16(v)
  {
    var q := v / 0x1_0000_0000;
    assert v % 0x1_0000_0000 == v - 0x1_0000 * (0x1_0000 * q);
  }

  lemma StoredIs(v: int)
    ensures StoredPort(v) == ToUint16(if ToInt32(v) == 0 then DNS_PORT else ToInt32(v))
  {
    Wrap(v);
  }

  lemma StoredUnchanged(v: int)
    ensures StoredPort(v) == v <==> 1 <= v <= 65535
  {
  }

  /** Any server text: the host is what stands before the first colon, and the port is that of
      the second of the non-empty parts between colons, or 53 when there is no second. */
  lemma ServerMeaning(field: string)
    ensures var parts := Fields(field, ':');
            ParseServer(field).1 == if |parts| < 2 then 53 else StoredPort(StrToL(parts[1]))
    ensures var host := ParseServer(field).0;
            host <= field && ':' !in host && (|host| < |field| ==> field[|host|] == ':')
  {
    hide Find, Fields, StrToL, ToInt32, StoredPort;
    FirstCall(field, ':');
    var at := StrTok(field, ':', 0);
    FindSpec(field, ':', 0);
    assert field[0..Find(field, ':', 0)] == field[..Find(field, ':', 0)];
    if at.0 != |field| {
      NextCall(field, ':', [], at);
      var at' := StrTok(field, ':', at.0 + |at.1|);
      assert Fields(field, ':') == [at.1] + Pending(field, ':', at');
      if at'.0 != |field| {
        StoredIs(StrToL(at'.1));
      }
    }
  }

  /** Whatever text without a colon stands after the host, the port stored is that of the
      number `pj_strtol` reads there: text that is no number gives 53, "-1" gives 65535. */
  lemma PortText(host: string, text: string)
    requires host != "" && ':' !in host
    requires text != "" && ':' !in text
    ensures ParseServer(host + (":" + text)) == (host, StoredPort(StrToL(text)))
  {
    HostPart(host, ":" + text);
    PortPart(host, text);
    Wrap(StrToL(text));
  }

  /** The port stored for a written number, negative ones included. */
  lemma PortOf(host: string, v: int)
    requires host != "" && ':' !in host
    ensures ParseServer(host + (":" + PrintInt(v))) == (host, StoredPort(v))
  {
    hide ParseServer;
    PortText(host, PrintInt(v));
    assert PrintInt(v) + "" == PrintInt(v);
    ReadPrinted(v, "");
  }

  /** A written port is stored unchanged exactly when it is a port number. */
  lemma PortKept(host: string, v: int)
    requires host != "" && ':' !in host
    ensures ParseServer(host + (":" + PrintInt(v))).1 == v <==> 1 <= v <= 65535
  {
    PortOf(host, v);
    StoredUnchanged(v);
  }

  lemma OneServer(host: string, v: int)
    requires host != "" && ':' !in host && ',' !in host
    ensures Servers(host + (":" + PrintInt(v))) == [(host, StoredPort(v))]
  {
    var s := host + (":" + PrintInt(v));
    hide ParseServer, Fields;
    PortOf(host, v);
    assert s + "" == s && ',' !in PrintInt(v);
    FirstField(s, "", ',');
    NoFields(',');
    assert ServersOf([s]) == [ParseServer(s)];
  }

  lemma PrintedPorts()
    ensures PrintInt(65536) == "65536" && PrintInt(-1) == "-1"
  {
    assert Print(65) == "65" && Print(655) == "655" && Print(6553) == "6553";
  }

  /** Two ports that are accepted and stored as others: 65536 as 0 and -1 as 65535. */
  lemma PortsChanged()
    ensures Servers("8.8.8.8:65536") == [("8.8.8.8", 0)]
    ensures Servers("8.8.8.8:-1") == [("8.8.8.8", 65535)]
  {
    hide Servers;
    OneServer("8.8.8.8", 65536);
    OneServer("8.8.8.8", -1);
    PrintedPorts();
    assert "8.8.8.8" + (":" + "65536") == "8.8.8.8:65536" && "8.8.8.8" + (":" + "-1") == "8.8.8.8:-1";
  }

  /** Without a port, with an empty one, or with one that starts with neither a digit nor a
      sign, the port is 53. */
  lemma DefaultPort(host: string, suffix: string)
    requires host != "" && ':' !in host
    requires suffix == "" || suffix[0] == ':'
    requires |suffix| > 1 ==> !IsDigit(suffix[1]) && suffix[1] !in {'+', '-', ':'}
    ensures ParseServer(host + suffix) == (host, 53)
  {
    var s := host + suffix;
    HostPart(host, suffix);
    if |suffix| > 1 {
      assert s[|host| + 1] == suffix[1] && s[|host|] == ':';
      assert SkipDelim(s, ':', |host|) == |host| + 1;
    }
  }

  lemma ParseEntry(e: Entry)
    requires WellFormed(e)
    ensures IsField(EntryText(e), ',')
    ensures ParseServer(EntryText(e)) == (e.host, e.port)
  {
    if e.written {
      PortOf(e.host, e.port);
      StoredUnchanged(e.port);
      var digits := PrintInt(e.port);
      assert ',' !in digits;
    } else {
      DefaultPort(e.host, "");
      assert e.host + "" == e.host;
    }
  }

  /** Round trip: writing any list of servers in the documented form and parsing it gives
      the first three of them, in order, with their ports. */
  lemma RoundTrip(es: seq<Entry>)
    requires forall e | e in es :: WellFormed(e)
    ensures var kept := Take(es, 3);
            Servers(ListText(es)) == seq(|kept|, i requires 0 <= i < |kept| => (kept[i].host, kept[i].port))
  {
    forall i | 0 <= i < |es|
      ensures IsField(Texts(es)[i], ',') && ParseServer(Texts(es)[i]) == (es[i].host, es[i].port)
    {
      ParseEntry(es[i]);
    }
    FieldsOfJoin(Texts(es), ',');
  }
}
