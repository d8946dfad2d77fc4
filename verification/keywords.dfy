/** The command words (`parse_command_str` in src/app/getopts.c). */
module Keywords {
  import opened PjLib

  datatype Command =
    | Unknown | Help | Version | Ping | Publish | Subscribe | Notify | Register | Refer | Message | Invite

  /** The word that selects a command; `Unknown`, `Help` and `Version` have none. */
  function WordOf(c: Command): string {
    match c
    case Ping => "ping"
    case Publish => "publish"
    case Subscribe => "subscribe"
    case Notify => "notify"
    case Register => "register"
    case Refer => "refer"
    case Message => "message"
    case Invite => "invite"
    case _ => ""
  }

  predicate HasWord(c: Command) {
    c !in {Unknown, Help, Version}
  }

  function ParseCommandStr(cmd: string): Command {
    if HasPrefix(cmd, WordOf(Ping)) then Ping
    else if HasPrefix(cmd, WordOf(Publish)) then Publish
    else if HasPrefix(cmd, WordOf(Subscribe)) then Subscribe
    else if HasPrefix(cmd, WordOf(Notify)) then Notify
    else if HasPrefix(cmd, WordOf(Register)) then Register
    else if HasPrefix(cmd, WordOf(Refer)) then Refer
    else if HasPrefix(cmd, WordOf(Message)) then Message
    else if HasPrefix(cmd, WordOf(Invite)) then Invite
    else Unknown
  }

  lemma FirstLetters(t: string, c: Command)
    requires HasWord(c) && HasPrefix(t, WordOf(c))
    ensures |t| >= 3
    ensures var k := (Lower(t[0]), Lower(t[1]), Lower(t[2]));
            match c
            case Ping => k == ('p', 'i', 'n')
            case Publish => k == ('p', 'u', 'b')
            case Subscribe => k == ('s', 'u', 'b')
            case Notify => k == ('n', 'o', 't')
            case Register => k == ('r', 'e', 'g')
            case Refer => k == ('r', 'e', 'f')
            case Message => k == ('m', 'e', 's')
            case Invite => k == ('i', 'n', 'v')
            case _ => false
  {
    PrefixAt(t, WordOf(c), 0);
    PrefixAt(t, WordOf(c), 1);
    PrefixAt(t, WordOf(c), 2);
  }

  /** No text starts with two command words. */
  lemma OneWord(t: string, c: Command, c': Command)
    requires HasWord(c) && HasWord(c') && HasPrefix(t, WordOf(c)) && HasPrefix(t, WordOf(c'))
    ensures c == c'
  {
    FirstLetters(t, c);
    FirstLetters(t, c');
  }

  /** Testing the words in any other order. */
  function FirstMatch(order: seq<Command>, t: string): Command {
    if order == [] then Unknown
    else if HasPrefix(t, WordOf(order[0])) then order[0]
    else FirstMatch(order[1..], t)
  }

  lemma {:induction false} FirstMatchMeaning(order: seq<Command>, t: string, c: Command)
    requires forall c | c in order :: HasWord(c)
    requires c in order && HasPrefix(t, WordOf(c))
    ensures FirstMatch(order, t) == c
  {
    if HasPrefix(t, WordOf(order[0])) {
      OneWord(t, c, order[0]);
    } else {
      FirstMatchMeaning(order[1..], t, c);
    }
  }

  lemma {:induction false} NoMatch(order: seq<Command>, t: string)
    requires forall c | c in order :: !HasPrefix(t, WordOf(c))
    ensures FirstMatch(order, t) == Unknown
  {
    if order != [] {
      NoMatch(order[1..], t);
    }
  }

  /** The command a text selects is the one whose word starts it, and the result does not
      depend on the order in which the words are tested. */
  lemma OrderIrrelevant(t: string, order: seq<Command>)
    requires forall c :: c in order <==> HasWord(c)
    ensures ParseCommandStr(t) == FirstMatch(order, t)
    ensures forall c | HasWord(c) :: ParseCommandStr(t) == c <==> HasPrefix(t, WordOf(c))
  {
    hide HasPrefix, WordOf;
    var c := ParseCommandStr(t);
    if c == Unknown {
      forall c' | c' in order ensures !HasPrefix(t, WordOf(c')) {
        match c' case Ping => case Publish => case Subscribe => case Notify => case Register =>
                 case Refer => case Message => case Invite =>
      }
      NoMatch(order, t);
    } else {
      FirstMatchMeaning(order, t, c);
      forall c' | HasWord(c') && HasPrefix(t, WordOf(c')) ensures c' == c {
        OneWord(t, c', c);
      }
    }
  }

  lemma SelectedByWord(t: string)
    ensures forall c | HasWord(c) :: ParseCommandStr(t) == c <==> HasPrefix(t, WordOf(c))
  {
    hide HasPrefix, WordOf, ParseCommandStr;
    var order := [Ping, Publish, Subscribe, Notify, Register, Refer, Message, Invite];
    forall c | HasWord(c) ensures c in order {
      var i := match c case Ping => 0 case Publish => 1 case Subscribe => 2 case Notify => 3
                       case Register => 4 case Refer => 5 case Message => 6 case Invite => 7;
      assert order[i] == c;
    }
    OrderIrrelevant(t, order);
  }

  /** The word that selects each command, in small letters, capitals or both, whatever follows
      it; any other text selects none. */
  lemma CommandWords(t: string)
    ensures ParseCommandStr(t) == Ping <==> Spells(t, "ping")
    ensures ParseCommandStr(t) == Publish <==> Spells(t, "publish")
    ensures ParseCommandStr(t) == Subscribe <==> Spells(t, "subscribe")
    ensures ParseCommandStr(t) == Notify <==> Spells(t, "notify")
    ensures ParseCommandStr(t) == Register <==> Spells(t, "register")
    ensures ParseCommandStr(t) == Refer <==> Spells(t, "refer")
    ensures ParseCommandStr(t) == Message <==> Spells(t, "message")
    ensures ParseCommandStr(t) == Invite <==> Spells(t, "invite")
    ensures ParseCommandStr(t) !in {Help, Version}
  {
    SelectedByWord(t);
    hide HasPrefix, Spells;
    forall c | HasWord(c) ensures HasPrefix(t, WordOf(c)) <==> Spells(t, WordOf(c)) {
      CaseIgnored(t, WordOf(c));
    }
    assert HasWord(Ping) && HasWord(Publish) && HasWord(Subscribe) && HasWord(Notify);
    assert HasWord(Register) && HasWord(Refer) && HasWord(Message) && HasWord(Invite);
    hide ParseCommandStr;
  }
}
