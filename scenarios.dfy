/** Concrete routing decisions for a small rule table. */
module Scenarios {
  import opened Optional
  import opened Text
  import opened Rules
  import opened Routing

  /**
   * One rule from "Sales" to "Ops" with the restriction "urgent" in the first
   * column and an empty third column; the chat list holds a private chat named
   * "Ops" ahead of the group "Ops Team".
   */
  const SalesToOps := Rule(Some("Sales"), Some(" Ops "), Some("urgent"), None, Some(""))
  const Directory := [Chat(false, "Ops"), Chat(true, "Ops Team")]

  /** Two distinct group chats that share the name "Ops Team". */
  const Twins := [Chat(true, "Ops Team"), Chat(true, "Ops Team")]

  /** A name or body whose first and last characters are visible ASCII has no edge space. */
  lemma VisibleEdges(s: string)
    requires s != [] && '!' <= s[0] <= '~' && '!' <= s[|s| - 1] <= '~'
    ensures NoEdgeSpace(s)
  {
    VisibleAsciiNotSpace(s[0]);
    VisibleAsciiNotSpace(s[|s| - 1]);
  }

  lemma OneSpace()
    ensures AllSpace(" ")
  {
    SpaceIsSpace();
  }

  lemma TrimmedOrigin()
    ensures Trim(" Sales") == "Sales"
  {
    VisibleEdges("Sales");
    OneSpace();
    assert " Sales" == " " + "Sales" + [];
    TrimUnpads(" ", "Sales", []);
  }

  lemma TrimmedUrgentBody()
    ensures Trim("This is URGENT news ") == "This is URGENT news"
  {
    VisibleEdges("This is URGENT news");
    OneSpace();
    assert "This is URGENT news " == [] + "This is URGENT news" + " ";
    TrimUnpads([], "This is URGENT news", " ");
  }

  lemma TrimmedRoutineBody()
    ensures Trim("Routine update") == "Routine update"
  {
    VisibleEdges("Routine update");
    assert "Routine update" == [] + "Routine update" + [];
    TrimUnpads([], "Routine update", []);
  }

  lemma SalesToOpsDestination()
    ensures Destination(SalesToOps) == Some("Ops")
  {
    VisibleEdges("Ops");
    OneSpace();
    assert " Ops " == " " + "Ops" + " ";
    TrimUnpads(" ", "Ops", " ");
  }

  lemma SalesToOpsApplies()
    ensures Applicable(SalesToOps, "Sales")
  {
    assert OccursAt(Lower("Sales"), Lower("Sales"), 0);
  }

  lemma RestrictionMatchesIgnoringCase()
    ensures RestrictionsHold(SalesToOps, "This is URGENT news")
  {
    var body := "This is URGENT news";
    assert body[8..14] == "URGENT";
    LowerSlice(body, 8, 14);
    assert Lower("URGENT") == "urgent" == Lower("urgent");
    assert OccursAt(Lower(body), Lower("urgent"), 8);
  }

  lemma RestrictionMissing()
    ensures !RestrictionsHold(SalesToOps, "Routine update")
  {
    assert Lower("Routine update") == "routine update";
    assert Lower("urgent") == "urgent";
    var hay := "routine update";
    assert forall j :: 0 <= j < |hay| ==> hay[j] != 'g';
    assert 'g' !in hay;
    assert "urgent"[2] == 'g';
    MissingCharNotContained("routine update", "urgent", 2);
  }

  /** The private chat named "Ops" is passed over: the first matching GROUP is chosen. */
  lemma OpsTeamIsTheDestination()
    ensures FindDestination(Directory, "Ops") == Some(1)
  {
    assert Lower("Ops") == "ops" && Lower("Ops Team") == "ops team";
    assert OccursAt("ops team", "ops", 0);
  }

  /** A body that contains the restriction in another case is forwarded once, to "Ops Team". */
  lemma UrgentMessageIsForwarded()
    ensures Route([SalesToOps], Chat(true, " Sales"), "This is URGENT news ", Directory)
            == [Send(1, Chat(true, "Ops Team"), ForwardedText("Sales", "This is URGENT news"))]
  {
    TrimmedOrigin();
    TrimmedUrgentBody();
    SalesToOpsDestination();
    SalesToOpsApplies();
    RestrictionMatchesIgnoringCase();
    OpsTeamIsTheDestination();
    RouteSingle(SalesToOps, Chat(true, " Sales"), "This is URGENT news ", Directory);
    SendForSpec(SalesToOps, "Sales", "This is URGENT news", Directory);
  }

  /** The same rule with a body lacking the restriction sends nothing. */
  lemma RoutineMessageIsNotForwarded()
    ensures Route([SalesToOps], Chat(true, " Sales"), "Routine update", Directory) == []
  {
    TrimmedOrigin();
    TrimmedRoutineBody();
    SalesToOpsDestination();
    SalesToOpsApplies();
    RestrictionMissing();
    RouteSingle(SalesToOps, Chat(true, " Sales"), "Routine update", Directory);
    SendForSpec(SalesToOps, "Sales", "Routine update", Directory);
  }

  /** Of two groups with the same name, the one listed first is chosen. */
  lemma FirstOfTwinsIsTheDestination()
    ensures FindDestination(Twins, "Ops") == Some(0)
  {
    assert Lower("Ops") == "ops" && Lower("Ops Team") == "ops team";
    assert OccursAt("ops team", "ops", 0);
  }

  /**
   * The send records which of two identically named groups it goes to: the
   * first, at position 0.
   */
  lemma UrgentMessageGoesToFirstTwin()
    ensures Route([SalesToOps], Chat(true, " Sales"), "This is URGENT news ", Twins)
            == [Send(0, Chat(true, "Ops Team"), ForwardedText("Sales", "This is URGENT news"))]
  {
    TrimmedOrigin();
    TrimmedUrgentBody();
    SalesToOpsDestination();
    SalesToOpsApplies();
    RestrictionMatchesIgnoringCase();
    FirstOfTwinsIsTheDestination();
    RouteSingle(SalesToOps, Chat(true, " Sales"), "This is URGENT news ", Twins);
    SendForSpec(SalesToOps, "Sales", "This is URGENT news", Twins);
  }
}
