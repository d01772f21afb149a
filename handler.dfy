/**
 * The body of `client.on("message", …)` as the handler runs it: the early
 * returns, then a `for … of` loop over the applicable rules that issues the
 * sends one by one. The sends are collected in an outbox in the order the
 * handler would make the `sendMessage` calls.
 */
module Handler {
  import opened Optional
  import opened Text
  import opened Rules
  import opened Seqs
  import opened Routing

  /**
   * Handles one inbound message. `rules` is the table loaded at start-up,
   * `chat` the result of `msg.getChat()`, and `chats` the result of
   * `client.getChats()`. The outbox is exactly the routing decision.
   */
  method OnMessage(rules: seq<Rule>, chat: Chat, body: string, chats: seq<Chat>) returns (outbox: seq<Send>)
    ensures outbox == Route(rules, chat, body, chats)
  {
    outbox := [];
    if !chat.isGroup {
      return;
    }
    var origen := Trim(chat.name);
    var contenido := Trim(body);
    var aplicables := ApplicableRules(rules, origen);
    if |aplicables| == 0 {
      return;
    }
    for i := 0 to |aplicables|
      invariant outbox == RouteRules(aplicables[..i], origen, contenido, chats)
    {
      var regla := aplicables[i];
      RouteRulesStep(aplicables, i, origen, contenido, chats);
      SendForCases(regla, origen, contenido, chats);
      var destino := Destination(regla);
      if destino.None? {
        continue;
      }
      var match1 := RestrictionHolds(regla.restriction1, contenido);
      var match2 := RestrictionHolds(regla.restriction2, contenido);
      var match3 := RestrictionHolds(regla.restriction3, contenido);
      if match1 && match2 && match3 {
        var chatDestino := FindDestination(chats, destino.value);
        if chatDestino.Some? {
          outbox := outbox + [Send(chatDestino.value, chats[chatDestino.value], ForwardedText(origen, contenido))];
        }
      }
    }
    assert aplicables[..|aplicables|] == aplicables;
  }
}
