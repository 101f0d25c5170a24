/**
 * The wrist side: a RESET button that looks up the connected nodes and sends
 * each one an empty reset message, and a listener for the phone's reset
 * confirmation. All of it is reported through one status text.
 */
module WatchActivity {
  import opened Transport

  /** The path the watch uses to send the reset command. */
  const MESSAGE_PATH_RESET: string := "/reset_counter"
  /** The path on which the phone confirms the reset. */
  const MESSAGE_PATH_CONFIRM: string := "/reset_confirm"

  const STATUS_INITIAL: string := "Tap to send RESET signal"
  const STATUS_SEARCHING: string := "Searching for phone..."
  const STATUS_NO_PHONE: string := "Error: No connected phone found!"
  // One literal in the activity; written in two parts so that proofs can index it.
  const STATUS_SENT: string := "RESET signal SENT. " + "Waiting for confirmation..."
  /**
   * The failure text as the activity builds it: the `${'$'}` escape yields a
   * literal dollar sign, so the text is fixed and does not carry the failure
   * reason.
   */
  const STATUS_SEND_FAILED: string := "Send Failed: ${e.message}"
  const STATUS_CONNECTION_ERROR: string := "Connection Error"

  const CONFIRMED_PREFIX: string := "SUCCESS: Phone Confirmed Reset ("
  const CONFIRMED_SUFFIX: string := ")!"

  /** The status shown once the phone's confirmation with text `receivedMsg` arrives. */
  function ConfirmedStatus(receivedMsg: string): (status: string)
    ensures |status| == |CONFIRMED_PREFIX| + |receivedMsg| + |CONFIRMED_SUFFIX|
    ensures status[|CONFIRMED_PREFIX|..|CONFIRMED_PREFIX| + |receivedMsg|] == receivedMsg
  {
    CONFIRMED_PREFIX + receivedMsg + CONFIRMED_SUFFIX
  }

  /** Different confirmation texts give different statuses: the payload text can be read back. */
  lemma ConfirmedStatusInjective(a: string, b: string)
    requires ConfirmedStatus(a) == ConfirmedStatus(b)
    ensures a == b
  {
  }

  /** A confirmation status is never mistaken for any other status of the activity. */
  lemma ConfirmedStatusDistinct(receivedMsg: string)
    ensures ConfirmedStatus(receivedMsg) !in
      {STATUS_INITIAL, STATUS_SEARCHING, STATUS_NO_PHONE, STATUS_SENT, STATUS_SEND_FAILED, STATUS_CONNECTION_ERROR}
  {
    var status := ConfirmedStatus(receivedMsg);
    assert status[1] == 'U';
    assert STATUS_INITIAL[1] == 'a' && STATUS_SEARCHING[1] == 'e' && STATUS_NO_PHONE[1] == 'r';
    assert STATUS_SENT[1] == 'E';
    assert STATUS_SEND_FAILED[1] == 'e';
    assert STATUS_CONNECTION_ERROR[1] == 'o';
  }

  /** A connected node as returned by the node client. */
  datatype Node = Node(id: string, displayName: string)

  /** The outcome of `connectedNodes.await()`: the node list, or the exception it threw. */
  datatype ConnectedNodes = Nodes(nodes: seq<Node>) | LookupFailed(message: string)

  class MainActivity {
    /** The status text shown under the RESET button. */
    var statusMessage: string
    /** Every request handed to the message client, oldest first. */
    var sent: seq<SentMessage>
    /** Every value the status has taken, oldest first; the last is the current one. */
    ghost var statusHistory: seq<string>
    /** Sends whose success or failure callback has not run yet. */
    ghost var pendingCallbacks: nat
    /** Presses whose coroutine is suspended at the node lookup. */
    ghost var pendingLookups: nat

    ghost predicate Valid()
      reads this
    {
      && |statusHistory| > 0
      && statusHistory[0] == STATUS_INITIAL
      && statusHistory[|statusHistory| - 1] == statusMessage
      && pendingCallbacks <= |sent|
      && (forall i :: 0 <= i < |sent| ==> sent[i].path == MESSAGE_PATH_RESET && sent[i].data == "")
      && (statusMessage == STATUS_SENT || statusMessage == STATUS_SEND_FAILED ==> sent != [])
    }

    constructor ()
      ensures Valid()
      ensures statusMessage == STATUS_INITIAL && statusHistory == [STATUS_INITIAL]
      ensures sent == [] && pendingCallbacks == 0 && pendingLookups == 0
    {
      statusMessage := STATUS_INITIAL;
      sent := [];
      statusHistory := [STATUS_INITIAL];
      pendingCallbacks := 0;
      pendingLookups := 0;
    }

    /** Overwrites the status text. */
    method SetStatus(status: string)
      modifies this`statusMessage, this`statusHistory
      ensures statusMessage == status
      ensures statusHistory == old(statusHistory) + [status]
    {
      statusMessage := status;
      statusHistory := statusHistory + [status];
    }

    /**
     * The RESET button: the launched coroutine shows "Searching for phone..."
     * and then suspends at the node lookup. Until the lookup completes, any
     * other event of the activity may run.
     */
    method PressReset()
      requires Valid()
      modifies this
      ensures Valid()
      ensures statusMessage == STATUS_SEARCHING
      ensures statusHistory == old(statusHistory) + [STATUS_SEARCHING]
      ensures pendingLookups == old(pendingLookups) + 1
      ensures sent == old(sent) && pendingCallbacks == old(pendingCallbacks)
    {
      SetStatus(STATUS_SEARCHING);
      pendingLookups := pendingLookups + 1;
    }

    /**
     * A suspended press resumes with the node lookup's outcome. A failed
     * lookup or an empty node list sets an error and sends nothing; otherwise
     * one empty reset message goes to each node, in list order, and the status
     * is left to the send callbacks.
     */
    method OnNodesResolved(lookup: ConnectedNodes)
      requires Valid() && pendingLookups > 0
      modifies this
      ensures Valid()
      ensures lookup.LookupFailed? ==>
        statusMessage == STATUS_CONNECTION_ERROR
        && statusHistory == old(statusHistory) + [STATUS_CONNECTION_ERROR]
      ensures lookup.Nodes? && lookup.nodes == [] ==>
        statusMessage == STATUS_NO_PHONE
        && statusHistory == old(statusHistory) + [STATUS_NO_PHONE]
      ensures lookup.Nodes? && lookup.nodes != [] ==>
        statusMessage == old(statusMessage) && statusHistory == old(statusHistory)
      ensures pendingLookups == old(pendingLookups) - 1
      ensures var issued := if lookup.Nodes? then lookup.nodes else [];
        && |sent| == |old(sent)| + |issued|
        && sent[..|old(sent)|] == old(sent)
        && (forall k :: 0 <= k < |issued| ==>
              sent[|old(sent)| + k] == SentMessage(issued[k].id, MESSAGE_PATH_RESET, ""))
        && pendingCallbacks == old(pendingCallbacks) + |issued|
    {
      pendingLookups := pendingLookups - 1;
      match lookup
      case LookupFailed(_) =>
        SetStatus(STATUS_CONNECTION_ERROR);
      case Nodes(nodes) =>
        if |nodes| == 0 {
          SetStatus(STATUS_NO_PHONE);
          return;
        }
        for i := 0 to |nodes|
          invariant |sent| == |old(sent)| + i
          invariant sent[..|old(sent)|] == old(sent)
          invariant forall k :: 0 <= k < i ==> sent[|old(sent)| + k] == SentMessage(nodes[k].id, MESSAGE_PATH_RESET, "")
          invariant pendingCallbacks == old(pendingCallbacks) + i
          invariant pendingLookups == old(pendingLookups) - 1
          invariant statusMessage == old(statusMessage)
          invariant statusHistory == old(statusHistory)
          invariant Valid()
        {
          sent := sent + [SentMessage(nodes[i].id, MESSAGE_PATH_RESET, "")];
          pendingCallbacks := pendingCallbacks + 1;
        }
    }

    /** A reset message was delivered to its node. */
    method OnSendSuccess()
      requires Valid() && pendingCallbacks > 0
      modifies this
      ensures Valid()
      ensures statusMessage == STATUS_SENT
      ensures statusHistory == old(statusHistory) + [STATUS_SENT]
      ensures sent == old(sent) && pendingCallbacks == old(pendingCallbacks) - 1
      ensures pendingLookups == old(pendingLookups)
    {
      SetStatus(STATUS_SENT);
      pendingCallbacks := pendingCallbacks - 1;
    }

    /** A reset message could not be delivered; the reason does not reach the status. */
    method OnSendFailure(reason: string)
      requires Valid() && pendingCallbacks > 0
      modifies this
      ensures Valid()
      ensures statusMessage == STATUS_SEND_FAILED
      ensures statusHistory == old(statusHistory) + [STATUS_SEND_FAILED]
      ensures sent == old(sent) && pendingCallbacks == old(pendingCallbacks) - 1
      ensures pendingLookups == old(pendingLookups)
    {
      SetStatus(STATUS_SEND_FAILED);
      pendingCallbacks := pendingCallbacks - 1;
    }

    /**
     * The message listener: a message on the confirm path shows its text in a
     * SUCCESS status, whatever the status was before; any other path is ignored.
     */
    method OnMessageReceived(messageEvent: MessageEvent)
      requires Valid()
      modifies this
      ensures Valid()
      ensures messageEvent.path == MESSAGE_PATH_CONFIRM ==>
        statusMessage == ConfirmedStatus(messageEvent.data)
        && statusHistory == old(statusHistory) + [statusMessage]
      ensures messageEvent.path != MESSAGE_PATH_CONFIRM ==>
        statusMessage == old(statusMessage) && statusHistory == old(statusHistory)
      ensures sent == old(sent) && pendingCallbacks == old(pendingCallbacks)
      ensures pendingLookups == old(pendingLookups)
    {
      if messageEvent.path == MESSAGE_PATH_CONFIRM {
        var receivedMsg := messageEvent.data;
        ConfirmedStatusDistinct(receivedMsg);
        SetStatus(ConfirmedStatus(receivedMsg));
      }
    }
  }

  /**
   * A confirmation can arrive while a press is suspended at the lookup: the
   * status goes from searching to SUCCESS, and the lookup that completes
   * afterwards with no nodes still overwrites it with the no-phone error.
   */
  method ConfirmationWhileSearching(receivedMsg: string) returns (activity: MainActivity)
    ensures activity.Valid()
    ensures activity.statusHistory
         == [STATUS_INITIAL, STATUS_SEARCHING, ConfirmedStatus(receivedMsg), STATUS_NO_PHONE]
    ensures activity.statusMessage == STATUS_NO_PHONE && activity.sent == []
  {
    activity := new MainActivity();
    activity.PressReset();
    activity.OnMessageReceived(MessageEvent(MESSAGE_PATH_CONFIRM, receivedMsg, "phone"));
    activity.OnNodesResolved(Nodes([]));
  }
}
