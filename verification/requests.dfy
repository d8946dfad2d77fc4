/** What the configuration adds to outgoing requests: headers merged into every request
    (src/app/sip_helper.c, called by src/mod/sip_mangler.c) and the route set. */
module Requests {
  import opened PjLib
  import opened Keywords
  import opened Codecs
  import opened Options
  import opened Settings
  import opened CommandLine

  /** The library's header name comparison, of which only this is assumed. */
  ghost predicate Equivalence(same: (string, string) -> bool) {
    && (forall a :: same(a, a))
    && (forall a, b | same(a, b) :: same(b, a))
    && (forall a, b, c | same(a, b) && same(b, c) :: same(a, c))
  }

  /** `pjsip_msg_find_hdr_by_name` finds a header. */
  predicate Has(same: (string, string) -> bool, hs: seq<Header>, name: string) {
    exists h | h in hs :: same(h.name, name)
  }

  const UA_NAME := "User-Agent"

  /** The headers the configuration wants in every request, in the order they are tried. */
  function Wanted(c: Config): seq<Header> {
    (if |c.userAgent| > 0 then [Header(UA_NAME, c.userAgent)] else []) + c.hdrs
  }

  /** Those of `wanted` whose name neither `msg` nor an earlier one of `wanted` has. */
  function Missing(same: (string, string) -> bool, msg: seq<Header>, wanted: seq<Header>): seq<Header> {
    if wanted == [] then []
    else
      var (init, h) := (wanted[..|wanted| - 1], wanted[|wanted| - 1]);
      Missing(same, msg, init) + if Has(same, msg, h.name) || Has(same, init, h.name) then [] else [h]
  }

  function Merged(same: (string, string) -> bool, msg: seq<Header>, wanted: seq<Header>): seq<Header> {
    msg + Missing(same, msg, wanted)
  }

  lemma HasConcat(same: (string, string) -> bool, a: seq<Header>, b: seq<Header>, name: string)
    ensures Has(same, a + b, name) <==> Has(same, a, name) || Has(same, b, name)
  {
    assert forall h :: h in a + b <==> h in a || h in b;
  }

  lemma HasTrans(same: (string, string) -> bool, hs: seq<Header>, name: string, name': string)
    requires Equivalence(same) && same(name, name')
    ensures Has(same, hs, name) <==> Has(same, hs, name')
  {
    forall h | h in hs ensures same(h.name, name) <==> same(h.name, name') {
    }
  }

  /** After merging, the names present are those of the message and those wanted. */
  lemma {:induction false} MergedNames(same: (string, string) -> bool, msg: seq<Header>, wanted: seq<Header>,
                                       name: string)
    requires Equivalence(same)
    ensures Has(same, Merged(same, msg, wanted), name) <==> Has(same, msg, name) || Has(same, wanted, name)
  {
    if wanted == [] {
      assert Merged(same, msg, wanted) == msg;
    } else {
      hide Equivalence;
      var (init, h) := (wanted[..|wanted| - 1], wanted[|wanted| - 1]);
      assert wanted == init + [h];
      MergedNames(same, msg, init, name);
      HasConcat(same, init, [h], name);
      if same(h.name, name) {
        HasTrans(same, msg, h.name, name);
        HasTrans(same, init, h.name, name);
      }
      if Has(same, msg, h.name) || Has(same, init, h.name) {
        assert Merged(same, msg, wanted) == Merged(same, msg, init);
      } else {
        assert Merged(same, msg, wanted) == Merged(same, msg, init) + [h];
        HasConcat(same, Merged(same, msg, init), [h], name);
      }
      assert Has(same, [h], name) <==> same(h.name, name);
    }
  }

  class TxData {
    var hdrs: seq<Header>

    method AddHdr(h: Header)
      modifies this
      ensures hdrs == old(hdrs) + [h]
    {
      hdrs := hdrs + [h];
    }

    method AddIfMissing(same: (string, string) -> bool, h: Header, ghost msg: seq<Header>, ghost wanted: seq<Header>)
      requires Equivalence(same) && hdrs == Merged(same, msg, wanted)
      modifies this
      ensures hdrs == Merged(same, msg, wanted + [h])
    {
      MergedNames(same, msg, wanted, h.name);
      assert (wanted + [h])[..|wanted|] == wanted;
      if !Has(same, hdrs, h.name) {
        AddHdr(h);
      }
    }

    /** The configured headers that were missing are appended; nothing else changes. */
    method AddSipHeaders(app: App, same: (string, string) -> bool)
      requires app.Valid() && Equivalence(same)
      modifies this
      ensures hdrs == Merged(same, old(hdrs), Wanted(app.Cfg()))
    {
      hide Merged, Has, Equivalence;
      ghost var msg, agent := hdrs, [];
      NothingWanted(same, msg);
      if |app.userAgent| > 0 {
        agent := [Header(UA_NAME, app.userAgent)];
        assert [] + agent == agent;
        AddIfMissing(same, Header(UA_NAME, app.userAgent), msg, []);
      }
      ghost var stored := app.hdrs.Stored();
      assert agent + stored[..0] == agent;
      for i := 0 to app.hdrs.cnt
        invariant hdrs == Merged(same, msg, agent + stored[..i])
      {
        assert agent + stored[..i + 1] == (agent + stored[..i]) + [app.hdrs.items[i]];
        AddIfMissing(same, app.hdrs.items[i], msg, agent + stored[..i]);
      }
      assert stored[..|stored|] == stored;
    }
  }

  lemma NothingWanted(same: (string, string) -> bool, msg: seq<Header>)
    ensures Merged(same, msg, []) == msg
  {
  }

  lemma {:induction false} NothingMissing(same: (string, string) -> bool, msg: seq<Header>, wanted: seq<Header>)
    requires forall h | h in wanted :: Has(same, msg, h.name)
    ensures Missing(same, msg, wanted) == []
  {
    if wanted != [] {
      NothingMissing(same, msg, wanted[..|wanted| - 1]);
    }
  }

  /** Merging again changes nothing, whatever headers were added in between: a retransmission,
      or a repeat with credentials, gains no second copy. */
  lemma MergedOnce(same: (string, string) -> bool, msg: seq<Header>, wanted: seq<Header>, added: seq<Header>)
    requires Equivalence(same)
    ensures var sent := Merged(same, msg, wanted) + added;
            Merged(same, sent, wanted) == sent
  {
    var sent := Merged(same, msg, wanted) + added;
    forall h | h in wanted ensures Has(same, sent, h.name) {
      MergedNames(same, msg, wanted, h.name);
      assert same(h.name, h.name);
      HasConcat(same, Merged(same, msg, wanted), added, h.name);
    }
    NothingMissing(same, sent, wanted);
  }

  function Copies(same: (string, string) -> bool, hs: seq<Header>, name: string): nat {
    if hs == [] then 0
    else Copies(same, hs[..|hs| - 1], name) + if same(hs[|hs| - 1].name, name) then 1 else 0
  }

  lemma {:induction false} CopiesConcat(same: (string, string) -> bool, a: seq<Header>, b: seq<Header>, name: string)
    ensures Copies(same, a + b, name) == Copies(same, a, name) + Copies(same, b, name)
  {
    if b == [] {
      assert a + b == a;
    } else {
      assert (a + b)[..|a + b| - 1] == a + b[..|b| - 1];
      CopiesConcat(same, a, b[..|b| - 1], name);
    }
  }

  lemma {:induction false} MissingCopies(same: (string, string) -> bool, msg: seq<Header>, wanted: seq<Header>,
                                         name: string)
    requires Equivalence(same)
    ensures Copies(same, Missing(same, msg, wanted), name) ==
            if !Has(same, msg, name) && Has(same, wanted, name) then 1 else 0
  {
    hide Equivalence, Has;
    if wanted == [] {
      HasNone(same, name);
    } else {
      var (init, h) := (wanted[..|wanted| - 1], wanted[|wanted| - 1]);
      assert wanted == init + [h];
      MissingCopies(same, msg, init, name);
      HasConcat(same, init, [h], name);
      HasOne(same, h, name);
      if same(h.name, name) {
        HasTrans(same, msg, h.name, name);
        HasTrans(same, init, h.name, name);
      }
      if Has(same, msg, h.name) || Has(same, init, h.name) {
        assert Missing(same, msg, wanted) == Missing(same, msg, init);
      } else {
        assert Missing(same, msg, wanted)[..|Missing(same, msg, init)|] == Missing(same, msg, init);
      }
    }
  }

  lemma HasNone(same: (string, string) -> bool, name: string)
    ensures !Has(same, [], name)
  {
  }

  lemma HasOne(same: (string, string) -> bool, h: Header, name: string)
    ensures Has(same, [h], name) <==> same(h.name, name)
  {
  }

  /** A wanted name that the message has gains no copy, a missing one gains exactly one, and
      other names gain none; the message's own headers stay in front, in order. */
  lemma MergedCopies(same: (string, string) -> bool, msg: seq<Header>, wanted: seq<Header>, name: string)
    requires Equivalence(same)
    ensures msg <= Merged(same, msg, wanted)
    ensures Copies(same, Merged(same, msg, wanted), name) ==
            Copies(same, msg, name) + if !Has(same, msg, name) && Has(same, wanted, name) then 1 else 0
  {
    CopiesConcat(same, msg, Missing(same, msg, wanted), name);
    MissingCopies(same, msg, wanted, name);
  }

  /** Among wanted headers that share a name, the first is the one that is added. */
  lemma {:induction false} FirstWins(same: (string, string) -> bool, msg: seq<Header>, wanted: seq<Header>, i: nat)
    requires Equivalence(same) && i < |wanted|
    requires !Has(same, msg, wanted[i].name) && !Has(same, wanted[..i], wanted[i].name)
    ensures wanted[i] in Missing(same, msg, wanted)
    ensures forall h | h in Merged(same, msg, wanted) && same(h.name, wanted[i].name) :: h == wanted[i]
  {
    var (init, h) := (wanted[..|wanted| - 1], wanted[|wanted| - 1]);
    if i < |init| {
      assert init[..i] == wanted[..i] && init[i] == wanted[i];
      FirstWins(same, msg, init, i);
      if same(h.name, wanted[i].name) {
        assert same(wanted[i].name, h.name);
        assert wanted[i] in init && Has(same, init, h.name);
      }
    } else {
      assert init == wanted[..i];
      forall g | g in Missing(same, msg, init) ensures g in init {
        MissingAreWanted(same, msg, init, g);
      }
    }
  }

  lemma {:induction false} MissingAreWanted(same: (string, string) -> bool, msg: seq<Header>, wanted: seq<Header>,
                                            h: Header)
    requires h in Missing(same, msg, wanted)
    ensures h in wanted
  {
    var (init, last) := (wanted[..|wanted| - 1], wanted[|wanted| - 1]);
    assert last in wanted;
    if h in Missing(same, msg, init) {
      MissingAreWanted(same, msg, init, h);
    }
  }

  /** Neither the message nor an earlier wanted header has the name of the i-th. */
  predicate New(same: (string, string) -> bool, msg: seq<Header>, wanted: seq<Header>, i: nat)
    requires i < |wanted|
  {
    !Has(same, msg, wanted[i].name) && !Has(same, wanted[..i], wanted[i].name)
  }

  /** How many of the first `n` wanted headers have a new name. */
  function NewCount(same: (string, string) -> bool, msg: seq<Header>, wanted: seq<Header>, n: nat): nat
    requires n <= |wanted|
  {
    if n == 0 then 0 else NewCount(same, msg, wanted, n - 1) + if New(same, msg, wanted, n - 1) then 1 else 0
  }

  lemma {:induction false} NewCountPrefix(same: (string, string) -> bool, msg: seq<Header>, wanted: seq<Header>,
                                          m: nat, n: nat)
    requires n <= m <= |wanted|
    ensures NewCount(same, msg, wanted[..m], n) == NewCount(same, msg, wanted, n)
  {
    if n > 0 {
      assert wanted[..m][..n - 1] == wanted[..n - 1];
      NewCountPrefix(same, msg, wanted, m, n - 1);
    }
  }

  /** Merging adds as many headers as are wanted under a new name, each at the place given by how
      many such headers stand before it. */
  lemma {:induction false} AddedInOrder(same: (string, string) -> bool, msg: seq<Header>, wanted: seq<Header>)
    ensures |Merged(same, msg, wanted)| == |msg| + NewCount(same, msg, wanted, |wanted|)
    ensures forall i | 0 <= i < |wanted| && New(same, msg, wanted, i) ::
              var p := |msg| + NewCount(same, msg, wanted, i);
              p < |Merged(same, msg, wanted)| && Merged(same, msg, wanted)[p] == wanted[i]
  {
    hide Has;
    if wanted != [] {
      var (n, init) := (|wanted| - 1, wanted[..|wanted| - 1]);
      AddedInOrder(same, msg, init);
      NewCountPrefix(same, msg, wanted, n, n);
      forall i | 0 <= i < |wanted| && New(same, msg, wanted, i)
        ensures var p := |msg| + NewCount(same, msg, wanted, i);
                p < |Merged(same, msg, wanted)| && Merged(same, msg, wanted)[p] == wanted[i]
      {
        if i < n {
          assert init[..i] == wanted[..i] && New(same, msg, init, i);
          NewCountPrefix(same, msg, wanted, n, i);
        }
      }
    }
  }

  /** A -A value wins over a custom User-Agent header. */
  lemma AgentWins(same: (string, string) -> bool, msg: seq<Header>, c: Config)
    requires Equivalence(same) && c.userAgent != "" && !Has(same, msg, UA_NAME)
    ensures forall h | h in Merged(same, msg, Wanted(c)) && same(h.name, UA_NAME) :: h == Header(UA_NAME, c.userAgent)
    ensures Header(UA_NAME, c.userAgent) in Merged(same, msg, Wanted(c))
  {
    assert Wanted(c)[..0] == [];
    FirstWins(same, msg, Wanted(c), 0);
  }

  // ----- routes -----

  /** The routes of the texts that parse as one, in order. */
  function RouteSet(parse: string -> Option<string>, texts: seq<string>): seq<string> {
    if texts == [] then []
    else RouteSet(parse, texts[..|texts| - 1]) +
         match parse(texts[|texts| - 1]) case None => [] case Some(r) => [r]
  }

  method SetProxiesList(app: App, parse: string -> Option<string>) returns (found: bool, routes: seq<string>)
    requires app.Valid()
    ensures found <==> app.Cfg().proxy != []
    ensures routes == RouteSet(parse, app.Cfg().proxy)
  {
    routes := [];
    if app.proxy.cnt == 0 {
      return false, [];
    }
    ghost var stored := app.proxy.Stored();
    for i := 0 to app.proxy.cnt
      invariant routes == RouteSet(parse, stored[..i])
    {
      assert stored[..i + 1][..i] == stored[..i];
      var route := parse(app.proxy.items[i]);
      if route.Some? {
        routes := routes + [route.value];
      }
    }
    assert stored[..|stored|] == stored;
    return true, routes;
  }

  /** How many texts parse as a route. */
  function RouteCount(parse: string -> Option<string>, texts: seq<string>): nat {
    if texts == [] then 0 else (if parse(texts[0]).Some? then 1 else 0) + RouteCount(parse, texts[1..])
  }

  lemma {:induction false} RouteCountSnoc(parse: string -> Option<string>, texts: seq<string>)
    requires texts != []
    ensures RouteCount(parse, texts) ==
            RouteCount(parse, texts[..|texts| - 1]) + if parse(texts[|texts| - 1]).Some? then 1 else 0
  {
    if |texts| > 1 {
      RouteCountSnoc(parse, texts[1..]);
      assert texts[1..][..|texts| - 2] == texts[..|texts| - 1][1..];
    }
  }

  /** There are as many routes as texts that parse, and each of these has its route at the place
      given by how many parse before it. */
  lemma {:induction false} RoutesInOrder(parse: string -> Option<string>, texts: seq<string>)
    ensures |RouteSet(parse, texts)| == RouteCount(parse, texts)
    ensures forall k | 0 <= k < |texts| && parse(texts[k]).Some? ::
              var p := RouteCount(parse, texts[..k]);
              p < |RouteSet(parse, texts)| && RouteSet(parse, texts)[p] == parse(texts[k]).value
  {
    if texts != [] {
      var init := texts[..|texts| - 1];
      RouteCountSnoc(parse, texts);
      RoutesInOrder(parse, init);
      forall k | 0 <= k < |texts| && parse(texts[k]).Some?
        ensures var p := RouteCount(parse, texts[..k]);
                p < |RouteSet(parse, texts)| && RouteSet(parse, texts)[p] == parse(texts[k]).value
      {
        if k < |init| {
          assert init[..k] == texts[..k] && init[k] == texts[k];
        } else {
          assert init == texts[..k];
        }
      }
    }
  }

  // ----- from the command line to the request -----

  /** Every request of an accepted command line carries each custom header asked for, and under
      each name once only if the request did not have it. */
  lemma CustomHeadersSent(b: Build, lib: UriLib, mwi: seq<int>, opts: seq<Opt>, left: seq<string>, c: Config,
                          same: (string, string) -> bool, msg: seq<Header>, k: nat)
    requires GetOpts(b, lib, Initial(mwi), opts, left) == Returned(true, c) && c.cmd !in {Help, Version}
    requires Equivalence(same) && k < |Texts(opts, HeaderText)|
    ensures ParseHeader(Texts(opts, HeaderText)[k]).Some?
    ensures var name := ParseHeader(Texts(opts, HeaderText)[k]).value.name;
            && Has(same, Merged(same, msg, Wanted(c)), name)
            && (!Has(same, msg, name) ==> Copies(same, Merged(same, msg, Wanted(c)), name) == 1)
  {
    hide ParseHeader;
    Accepted(b, lib, mwi, opts, left, c);
    StoredLists(b, lib, mwi, opts);
    var h := ParseHeader(Texts(opts, HeaderText)[k]).value;
    assert c.hdrs[k] == h && h in Wanted(c);
    assert same(h.name, h.name);
    MergedNames(same, msg, Wanted(c), h.name);
    MergedCopies(same, msg, Wanted(c), h.name);
    NoCopies(same, msg, h.name);
  }

  lemma {:induction false} NoCopies(same: (string, string) -> bool, hs: seq<Header>, name: string)
    ensures Copies(same, hs, name) == 0 <==> !Has(same, hs, name)
  {
    if hs != [] {
      var init := hs[..|hs| - 1];
      NoCopies(same, init, name);
      assert hs == init + [hs[|hs| - 1]];
      HasConcat(same, init, [hs[|hs| - 1]], name);
    }
  }

  /** The value of the last -A, if it is not blank. */
  function AgentAsked(opts: seq<Opt>): Option<string> {
    match Last(opts, AgentText)
    case None => None
    case Some(t) => if Trim(t) == "" then None else Some(Trim(t))
  }

  /** Nothing else is sent: each header of a merged request was in it, or is one of the -H
      headers, or is the User-Agent that the last -A names, when it names one. */
  lemma OnlyAskedHeadersSent(b: Build, lib: UriLib, mwi: seq<int>, opts: seq<Opt>, left: seq<string>, c: Config,
                             same: (string, string) -> bool, msg: seq<Header>, h: Header)
    requires GetOpts(b, lib, Initial(mwi), opts, left) == Returned(true, c) && c.cmd !in {Help, Version}
    requires h in Merged(same, msg, Wanted(c))
    ensures h in msg
            || (exists t | t in Texts(opts, HeaderText) :: ParseHeader(t) == Some(h))
            || (h.name == "User-Agent" && AgentAsked(opts) == Some(h.value))
  {
    hide ParseHeader, Trim, Last, RunOpts, GetOpts;
    Accepted(b, lib, mwi, opts, left, c);
    StoredLists(b, lib, mwi, opts);
    TextsConfigured(b, lib, mwi, opts, left, c);
    if h !in msg {
      MissingAreWanted(same, msg, Wanted(c), h);
      if h in c.hdrs {
        var ts := Texts(opts, HeaderText);
        var k :| 0 <= k < |c.hdrs| && c.hdrs[k] == h;
        assert ts[k] in ts && ParseHeader(ts[k]) == Some(h);
      }
    }
  }

  /** Of several -H headers of one name that the request lacks the first is sent, with its value,
      unless the name is that of the User-Agent and -A names one. */
  lemma FirstCustomSent(b: Build, lib: UriLib, mwi: seq<int>, opts: seq<Opt>, left: seq<string>, c: Config,
                        same: (string, string) -> bool, msg: seq<Header>, k: nat)
    requires GetOpts(b, lib, Initial(mwi), opts, left) == Returned(true, c) && c.cmd !in {Help, Version}
    requires Equivalence(same) && k < |Texts(opts, HeaderText)| && AllParse(Texts(opts, HeaderText))
    requires var (hs, h) := (HeadersOf(Texts(opts, HeaderText)), ParseHeader(Texts(opts, HeaderText)[k]).value);
             && !Has(same, msg, h.name) && !Has(same, hs[..k], h.name)
             && (AgentAsked(opts).Some? ==> !same("User-Agent", h.name))
    ensures var h := ParseHeader(Texts(opts, HeaderText)[k]).value;
            && h in Merged(same, msg, Wanted(c))
            && forall g | g in Merged(same, msg, Wanted(c)) && same(g.name, h.name) :: g == h
  {
    hide ParseHeader, Trim, Last, RunOpts, GetOpts, Has, Equivalence;
    Accepted(b, lib, mwi, opts, left, c);
    StoredLists(b, lib, mwi, opts);
    TextsConfigured(b, lib, mwi, opts, left, c);
    var agent := if AgentAsked(opts).Some? then [Header(UA_NAME, c.userAgent)] else [];
    var wanted := Wanted(c);
    assert wanted == agent + c.hdrs;
    var i := |agent| + k;
    assert wanted[i] == c.hdrs[k] && wanted[..i] == agent + c.hdrs[..k];
    HasConcat(same, agent, c.hdrs[..k], wanted[i].name);
    if agent == [] {
      HasNone(same, wanted[i].name);
    } else {
      HasOne(same, agent[0], wanted[i].name);
    }
    FirstWins(same, msg, wanted, i);
  }

  /** A User-Agent that the last -A names is the one a request carries that has none. */
  lemma AskedAgentSent(b: Build, lib: UriLib, mwi: seq<int>, opts: seq<Opt>, left: seq<string>, c: Config,
                       same: (string, string) -> bool, msg: seq<Header>)
    requires GetOpts(b, lib, Initial(mwi), opts, left) == Returned(true, c) && c.cmd !in {Help, Version}
    requires Equivalence(same) && !Has(same, msg, "User-Agent") && AgentAsked(opts).Some?
    ensures Header("User-Agent", AgentAsked(opts).value) in Merged(same, msg, Wanted(c))
    ensures forall g | g in Merged(same, msg, Wanted(c)) && same(g.name, "User-Agent") ::
              g == Header("User-Agent", AgentAsked(opts).value)
  {
    hide Trim, Last, GetOpts, Has, Equivalence, Merged, Wanted;
    TextsConfigured(b, lib, mwi, opts, left, c);
    AgentWins(same, msg, c);
  }
}
