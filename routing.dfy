/**
 * The routing decision of the `message` handler as a pure function: given the
 * rule table, the inbound chat, the message body and the chat list, which
 * group chats receive a forwarded message and with what text.
 */
module Routing {
  import opened Optional
  import opened Text
  import opened Rules
  import opened Seqs

  /** A chat as the client reports it. */
  datatype Chat = Chat(isGroup: bool, name: string)

  /**
   * One `sendMessage` call: the position `at` in the chat list of the chat
   * object it is called on, that chat, and the text it carries. The position
   * identifies the object even when several chats look alike.
   */
  datatype Send = Send(at: nat, to: Chat, text: string)

  /** The `chats.find` test: a group whose lower-cased name contains the lower-cased destination. */
  predicate IsTarget(c: Chat, destino: string) {
    c.isGroup && Contains(Lower(c.name), Lower(destino))
  }

  /** `chats.find(...)`, as a position: the first chat in list order that is a target, if any. */
  function FindDestination(chats: seq<Chat>, destino: string): (i: Option<nat>)
    ensures i.Some? ==> i.value < |chats|
  {
    if chats == [] then None
    else if IsTarget(chats[0], destino) then Some(0)
    else
      match FindDestination(chats[1..], destino)
      case None => None
      case Some(k) => Some(k + 1)
  }

  /**
   * The chat found is a target and no earlier chat is; nothing is found exactly
   * when no chat in the list is a target.
   */
  lemma {:induction false} FindDestinationSpec(chats: seq<Chat>, destino: string)
    ensures FindDestination(chats, destino).Some? ==>
              var i := FindDestination(chats, destino).value;
              IsTarget(chats[i], destino) && forall j :: 0 <= j < i ==> !IsTarget(chats[j], destino)
    ensures FindDestination(chats, destino).None? <==> forall j :: 0 <= j < |chats| ==> !IsTarget(chats[j], destino)
  {
    if chats != [] && !IsTarget(chats[0], destino) {
      FindDestinationSpec(chats[1..], destino);
      assert forall j :: 1 <= j < |chats| ==> chats[j] == chats[1..][j - 1];
    }
  }

  /** The fixed header of every forwarded text: "📩 *Reenviado desde:* ". */
  const ForwardHeader: string := "\U{1F4E9} *Reenviado desde:* "

  /**
   * The text sent to a destination: the header, the trimmed origin name, a blank
   * line, then the trimmed body. Each part can be read back at its position.
   */
  function ForwardedText(origen: string, contenido: string): (t: string)
    ensures |t| == |ForwardHeader| + |origen| + 2 + |contenido|
    ensures t[..|ForwardHeader|] == ForwardHeader
    ensures t[|ForwardHeader|..|ForwardHeader| + |origen|] == origen
    ensures t[|ForwardHeader| + |origen|..|ForwardHeader| + |origen| + 2] == "\n\n"
    ensures t[|t| - |contenido|..] == contenido
  {
    ForwardHeader + origen + "\n\n" + contenido
  }

  /**
   * What one applicable rule contributes, in the order the loop body tests it:
   * nothing when it names no destination, nothing when a restriction fails,
   * nothing when no chat matches, else one send to the first matching chat.
   */
  function SendFor(r: Rule, origen: string, contenido: string, chats: seq<Chat>): (s: seq<Send>)
    ensures |s| <= 1
  {
    match Destination(r)
    case None => []
    case Some(destino) =>
      if !RestrictionsHold(r, contenido) then []
      else
        match FindDestination(chats, destino)
        case None => []
        case Some(i) => [Send(i, chats[i], ForwardedText(origen, contenido))]
  }

  /**
   * A rule sends exactly when it fires and some chat matches its destination;
   * the send goes to the first such chat, which is a group, and carries the
   * forwarded text.
   */
  lemma SendForSpec(r: Rule, origen: string, contenido: string, chats: seq<Chat>)
    ensures |SendFor(r, origen, contenido, chats)| == 1
            <==> Fires(r, contenido) && FindDestination(chats, Destination(r).value).Some?
    ensures Fires(r, contenido) && FindDestination(chats, Destination(r).value).Some? ==>
            var i := FindDestination(chats, Destination(r).value).value;
            SendFor(r, origen, contenido, chats) == [Send(i, chats[i], ForwardedText(origen, contenido))]
            && chats[i].isGroup && chats[i] in chats
  {
  }

  /** `SendFor` by the branches of the loop body, each in terms of the tests the loop makes. */
  lemma SendForCases(r: Rule, origen: string, contenido: string, chats: seq<Chat>)
    ensures Destination(r).None? ==> SendFor(r, origen, contenido, chats) == []
    ensures Destination(r).Some? && !RestrictionsHold(r, contenido) ==> SendFor(r, origen, contenido, chats) == []
    ensures Destination(r).Some? && RestrictionsHold(r, contenido) ==>
              SendFor(r, origen, contenido, chats)
              == match FindDestination(chats, Destination(r).value)
                 case None => []
                 case Some(i) => [Send(i, chats[i], ForwardedText(origen, contenido))]
  {
  }

  /** The sends of the loop over `reglasAplicables`: each rule's sends, in order, with no early exit. */
  function RouteRules(rs: seq<Rule>, origen: string, contenido: string, chats: seq<Chat>): seq<Send>
  {
    FlatMap((r: Rule) => SendFor(r, origen, contenido, chats), rs)
  }

  /**
   * The whole handler: non-group chats produce nothing; otherwise the applicable
   * rules for the trimmed chat name are walked with the trimmed body.
   */
  function Route(rules: seq<Rule>, chat: Chat, body: string, chats: seq<Chat>): seq<Send>
  {
    if !chat.isGroup then []
    else
      var origen := Trim(chat.name);
      RouteRules(ApplicableRules(rules, origen), origen, Trim(body), chats)
  }

  /** Walking two lists of rules one after the other sends what each sends, in that order. */
  lemma RouteRulesAppend(a: seq<Rule>, b: seq<Rule>, origen: string, contenido: string, chats: seq<Chat>)
    ensures RouteRules(a + b, origen, contenido, chats)
            == RouteRules(a, origen, contenido, chats) + RouteRules(b, origen, contenido, chats)
  {
    FlatMapAppend((r: Rule) => SendFor(r, origen, contenido, chats), a, b);
  }

  /** One more iteration of the loop over `rs` adds the sends of rule `rs[i]`. */
  lemma RouteRulesStep(rs: seq<Rule>, i: nat, origen: string, contenido: string, chats: seq<Chat>)
    requires i < |rs|
    ensures RouteRules(rs[..i + 1], origen, contenido, chats)
            == RouteRules(rs[..i], origen, contenido, chats) + SendFor(rs[i], origen, contenido, chats)
  {
    assert rs[..i + 1] == rs[..i] + [rs[i]];
    RouteRulesAppend(rs[..i], [rs[i]], origen, contenido, chats);
    RouteRulesSingle(rs[i], origen, contenido, chats);
  }

  /** Each rule yields at most one send. */
  lemma RouteRulesLength(rs: seq<Rule>, origen: string, contenido: string, chats: seq<Chat>)
    ensures |RouteRules(rs, origen, contenido, chats)| <= |rs|
  {
    FlatMapLength((r: Rule) => SendFor(r, origen, contenido, chats), rs);
  }

  /** A message from a chat that is not a group is forwarded nowhere. */
  lemma NonGroupNoSends(rules: seq<Rule>, chat: Chat, body: string, chats: seq<Chat>)
    requires !chat.isGroup
    ensures Route(rules, chat, body, chats) == []
  {
  }

  /** There are never more sends than applicable rules. */
  lemma RouteBounded(rules: seq<Rule>, chat: Chat, body: string, chats: seq<Chat>)
    ensures |Route(rules, chat, body, chats)| <= |ApplicableRules(rules, Trim(chat.name))|
  {
    if chat.isGroup {
      RouteRulesLength(ApplicableRules(rules, Trim(chat.name)), Trim(chat.name), Trim(body), chats);
    }
  }

  /**
   * Sends follow table order: routing a table made of two parts sends what the
   * first part sends, followed by what the second part sends.
   */
  lemma RouteConcat(a: seq<Rule>, b: seq<Rule>, chat: Chat, body: string, chats: seq<Chat>)
    ensures Route(a + b, chat, body, chats) == Route(a, chat, body, chats) + Route(b, chat, body, chats)
  {
    if chat.isGroup {
      var origen := Trim(chat.name);
      ApplicableRulesAppend(a, b, origen);
      RouteRulesAppend(ApplicableRules(a, origen), ApplicableRules(b, origen), origen, Trim(body), chats);
    }
  }

  /** What a table of two parts around one rule sends, in terms of the parts. */
  lemma RouteAround(pre: seq<Rule>, r: Rule, post: seq<Rule>, chat: Chat, body: string, chats: seq<Chat>)
    ensures Route(pre + [r] + post, chat, body, chats)
            == Route(pre, chat, body, chats) + Route([r], chat, body, chats) + Route(post, chat, body, chats)
    ensures Route(pre + post, chat, body, chats) == Route(pre, chat, body, chats) + Route(post, chat, body, chats)
  {
    RouteConcat(pre + [r], post, chat, body, chats);
    RouteConcat(pre, [r], chat, body, chats);
    RouteConcat(pre, post, chat, body, chats);
  }

  lemma RouteRulesSingle(r: Rule, origen: string, contenido: string, chats: seq<Chat>)
    ensures RouteRules([r], origen, contenido, chats) == SendFor(r, origen, contenido, chats)
  {
    var f := (r: Rule) => SendFor(r, origen, contenido, chats);
    assert [r][1..] == [];
    assert FlatMap(f, [r]) == f(r) + FlatMap(f, []);
    assert f(r) + [] == f(r);
  }

  /** A one-rule table sends that rule's contribution when it applies to the group, and nothing otherwise. */
  lemma RouteSingle(r: Rule, chat: Chat, body: string, chats: seq<Chat>)
    ensures Route([r], chat, body, chats)
            == if chat.isGroup && Applicable(r, Trim(chat.name))
               then SendFor(r, Trim(chat.name), Trim(body), chats) else []
  {
    if chat.isGroup {
      var origen := Trim(chat.name);
      ApplicableRulesSingle(r, origen);
      RouteRulesSingle(r, origen, Trim(body), chats);
    }
  }

  /**
   * An applicable rule with no destination (cell absent or only whitespace)
   * sends nothing and leaves the other rules' sends as they are.
   */
  lemma SkippedRuleNoEffect(pre: seq<Rule>, r: Rule, post: seq<Rule>, chat: Chat, body: string, chats: seq<Chat>)
    requires Destination(r).None?
    ensures Route(pre + [r] + post, chat, body, chats) == Route(pre + post, chat, body, chats)
  {
    RouteSingle(r, chat, body, chats);
    RouteAround(pre, r, post, chat, body, chats);
    DropEmpty(Route(pre, chat, body, chats), Route([r], chat, body, chats), Route(post, chat, body, chats));
  }

  /** Removing an empty contribution between two others leaves their sends as they are. */
  lemma DropEmpty(p: seq<Send>, x: seq<Send>, q: seq<Send>)
    requires x == []
    ensures p + x + q == p + q
  {
  }

  /**
   * Filling an empty restriction column of one rule with text `s`: the table
   * sends as before when the trimmed body contains `s` (case-insensitively),
   * and otherwise as if that rule were not there. It never adds a send.
   */
  lemma RouteTightenRestriction(pre: seq<Rule>, r: Rule, k: nat, s: string, post: seq<Rule>,
                                chat: Chat, body: string, chats: seq<Chat>)
    requires 1 <= k <= 3
    requires !Filled(RestrictionAt(r, k))
    requires s != []
    ensures Route(pre + [WithRestriction(r, k, Some(s))] + post, chat, body, chats)
            == if Contains(Lower(Trim(body)), Lower(s)) then Route(pre + [r] + post, chat, body, chats)
               else Route(pre + post, chat, body, chats)
  {
    var r' := WithRestriction(r, k, Some(s));
    RouteAround(pre, r, post, chat, body, chats);
    RouteAround(pre, r', post, chat, body, chats);
    RouteSingleTighten(r, k, s, chat, body, chats);
    if !Contains(Lower(Trim(body)), Lower(s)) {
      DropEmpty(Route(pre, chat, body, chats), Route([r'], chat, body, chats), Route(post, chat, body, chats));
    }
  }

  lemma RouteSingleTighten(r: Rule, k: nat, s: string, chat: Chat, body: string, chats: seq<Chat>)
    requires 1 <= k <= 3
    requires !Filled(RestrictionAt(r, k))
    requires s != []
    ensures Route([WithRestriction(r, k, Some(s))], chat, body, chats)
            == if Contains(Lower(Trim(body)), Lower(s)) then Route([r], chat, body, chats) else []
  {
    var r' := WithRestriction(r, k, Some(s));
    RouteSingle(r, chat, body, chats);
    RouteSingle(r', chat, body, chats);
    TightenRestriction(r, k, s, Trim(body));
    assert Destination(r') == Destination(r);
    assert Applicable(r', Trim(chat.name)) == Applicable(r, Trim(chat.name));
    SendForSpec(r, Trim(chat.name), Trim(body), chats);
    SendForSpec(r', Trim(chat.name), Trim(body), chats);
    if Contains(Lower(Trim(body)), Lower(s)) {
      assert SendFor(r', Trim(chat.name), Trim(body), chats) == SendFor(r, Trim(chat.name), Trim(body), chats);
    } else {
      assert SendFor(r', Trim(chat.name), Trim(body), chats) == [];
    }
  }

  /**
   * No first-match cut-off: when two rules both apply, fire and find a chat,
   * both are forwarded, the earlier rule's send first.
   */
  lemma EveryMatchingRuleFires(a: Rule, b: Rule, chat: Chat, body: string, chats: seq<Chat>)
    requires chat.isGroup
    requires Applicable(a, Trim(chat.name)) && Fires(a, Trim(body)) && FindDestination(chats, Destination(a).value).Some?
    requires Applicable(b, Trim(chat.name)) && Fires(b, Trim(body)) && FindDestination(chats, Destination(b).value).Some?
    ensures var ia, ib := FindDestination(chats, Destination(a).value).value, FindDestination(chats, Destination(b).value).value;
            var text := ForwardedText(Trim(chat.name), Trim(body));
            Route([a, b], chat, body, chats) == [Send(ia, chats[ia], text), Send(ib, chats[ib], text)]
  {
    RouteSingleFires(a, chat, body, chats);
    RouteSingleFires(b, chat, body, chats);
    assert [a, b] == [a] + [b];
    RouteConcat([a], [b], chat, body, chats);
  }

  /** A one-rule table whose rule applies, fires and finds a chat sends exactly one message. */
  lemma RouteSingleFires(r: Rule, chat: Chat, body: string, chats: seq<Chat>)
    requires chat.isGroup
    requires Applicable(r, Trim(chat.name)) && Fires(r, Trim(body)) && FindDestination(chats, Destination(r).value).Some?
    ensures var i := FindDestination(chats, Destination(r).value).value;
            Route([r], chat, body, chats) == [Send(i, chats[i], ForwardedText(Trim(chat.name), Trim(body)))]
  {
    SendForSpec(r, Trim(chat.name), Trim(body), chats);
    RouteSingle(r, chat, body, chats);
  }

  /**
   * Every send goes to a group in the chat list, carries the forwarded text of
   * this message, and is due to a rule of the table that applies, fires and
   * whose first matching chat is that group.
   */
  lemma RouteRulesSound(rs: seq<Rule>, origen: string, contenido: string, chats: seq<Chat>)
    ensures forall s :: s in RouteRules(rs, origen, contenido, chats) ==>
      && s.at < |chats| && chats[s.at] == s.to && s.to.isGroup && s.text == ForwardedText(origen, contenido)
      && exists r :: r in rs && Fires(r, contenido) && FindDestination(chats, Destination(r).value) == Some(s.at)
  {
    var f := (r: Rule) => SendFor(r, origen, contenido, chats);
    FlatMapMembers(f, rs);
    forall s | s in RouteRules(rs, origen, contenido, chats)
      ensures s.at < |chats| && chats[s.at] == s.to && s.to.isGroup && s.text == ForwardedText(origen, contenido)
      ensures exists r :: r in rs && Fires(r, contenido) && FindDestination(chats, Destination(r).value) == Some(s.at)
    {
      var r :| r in rs && s in f(r);
      SendForSound(r, origen, contenido, chats, s);
    }
  }

  /** A send that one rule yields goes to the chat at the position its lookup found, with the forwarded text. */
  lemma SendForSound(r: Rule, origen: string, contenido: string, chats: seq<Chat>, s: Send)
    requires s in SendFor(r, origen, contenido, chats)
    ensures s.at < |chats| && chats[s.at] == s.to && s.to.isGroup && s.text == ForwardedText(origen, contenido)
    ensures Fires(r, contenido) && FindDestination(chats, Destination(r).value) == Some(s.at)
  {
    SendForSpec(r, origen, contenido, chats);
  }

  lemma RouteSound(rules: seq<Rule>, chat: Chat, body: string, chats: seq<Chat>)
    ensures forall s :: s in Route(rules, chat, body, chats) ==>
      && chat.isGroup && s.at < |chats| && chats[s.at] == s.to && s.to.isGroup
      && s.text == ForwardedText(Trim(chat.name), Trim(body))
      && exists r :: r in rules && Applicable(r, Trim(chat.name)) && Fires(r, Trim(body))
                     && FindDestination(chats, Destination(r).value) == Some(s.at)
  {
    if chat.isGroup {
      ApplicableRulesMembers(rules, Trim(chat.name));
      RouteRulesSound(ApplicableRules(rules, Trim(chat.name)), Trim(chat.name), Trim(body), chats);
    }
  }

  /**
   * Every rule that applies, fires and finds a chat is forwarded: its send to
   * the first matching chat is among the sends.
   */
  lemma RouteRulesComplete(rs: seq<Rule>, r: Rule, origen: string, contenido: string, chats: seq<Chat>)
    requires r in rs && Fires(r, contenido) && FindDestination(chats, Destination(r).value).Some?
    ensures var i := FindDestination(chats, Destination(r).value).value;
            Send(i, chats[i], ForwardedText(origen, contenido)) in RouteRules(rs, origen, contenido, chats)
  {
    var f := (r: Rule) => SendFor(r, origen, contenido, chats);
    FlatMapMembers(f, rs);
    SendForSpec(r, origen, contenido, chats);
    assert f(r)[0] in f(r);
  }

  lemma RouteComplete(rules: seq<Rule>, r: Rule, chat: Chat, body: string, chats: seq<Chat>)
    requires chat.isGroup && r in rules && Applicable(r, Trim(chat.name))
    requires Fires(r, Trim(body)) && FindDestination(chats, Destination(r).value).Some?
    ensures var i := FindDestination(chats, Destination(r).value).value;
            Send(i, chats[i], ForwardedText(Trim(chat.name), Trim(body))) in Route(rules, chat, body, chats)
  {
    ApplicableRulesMembers(rules, Trim(chat.name));
    RouteRulesComplete(ApplicableRules(rules, Trim(chat.name)), r, Trim(chat.name), Trim(body), chats);
  }
}
