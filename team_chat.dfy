/**
 * The team chat panel, task-manager-frontend/src/components/TeamChatBox.tsx:
 * the history time shift, appending live messages, the send guard, the
 * day separators and the sender caption. Times are milliseconds since the
 * epoch; the day label of a message (`getDateLabel`, clock and locale
 * dependent) is a parameter.
 */
module TeamChat {
  import opened Common
  import opened Strings

  datatype ChatMessage = ChatMessage(senderEmail: string, message: string, sentAt: int, fromHistory: bool)

  /** `4 * 60 * 60 * 1000`. */
  const HistoryShiftMs: int := 14_400_000

  /** The history `map`: each stored message moved four hours earlier and marked as history. */
  function AdjustHistory(stored: seq<ChatMessage>): (r: seq<ChatMessage>)
    ensures |r| == |stored|
    ensures forall i :: 0 <= i < |stored| ==>
              r[i].sentAt == stored[i].sentAt - HistoryShiftMs && r[i].fromHistory
  {
    seq(|stored|, i requires 0 <= i < |stored| =>
          stored[i].(sentAt := stored[i].sentAt - HistoryShiftMs, fromHistory := true))
  }

  /** The shift loses nothing but the flag: sender and text stay, and the time is recovered by adding it back. */
  lemma AdjustHistoryInvertible(stored: seq<ChatMessage>)
    ensures forall i :: 0 <= i < |stored| ==>
              AdjustHistory(stored)[i].(sentAt := AdjustHistory(stored)[i].sentAt + HistoryShiftMs,
                                        fromHistory := stored[i].fromHistory) == stored[i]
  {
  }

  /** `msg.sender_email === userEmail ? 'You' : msg.sender_email`. */
  function SenderLabel(msg: ChatMessage, userEmail: string): (r: string)
    ensures msg.senderEmail == userEmail ==> r == "You"
    ensures msg.senderEmail != userEmail ==> r == msg.senderEmail
  {
    if msg.senderEmail == userEmail then "You" else msg.senderEmail
  }

  // ------------------------------------------------------------ separators

  /** Whether message `i` gets a separator: its label differs from the one before it ("" before the first). */
  predicate ShowSeparator(labels: seq<string>, i: nat)
    requires i < |labels|
  {
    labels[i] != (if i == 0 then "" else labels[i - 1])
  }

  /**
   * The render loop threading `lastDateLabel`, which starts as "": one flag
   * per message, set when its label differs from the last label seen.
   */
  method SeparatorFlags(labels: seq<string>) returns (flags: seq<bool>)
    ensures |flags| == |labels|
    ensures forall i :: 0 <= i < |labels| ==> flags[i] == ShowSeparator(labels, i)
  {
    var lastDateLabel := "";
    flags := [];
    for i := 0 to |labels|
      invariant |flags| == i
      invariant lastDateLabel == if i == 0 then "" else labels[i - 1]
      invariant forall k :: 0 <= k < i ==> flags[k] == ShowSeparator(labels, k)
    {
      var dayLabel := labels[i];
      var showLabel := dayLabel != lastDateLabel;
      lastDateLabel := dayLabel;
      flags := flags + [showLabel];
    }
  }

  /**
   * With the non-empty labels `getDateLabel` produces, the first message
   * always opens with a separator, and a run of messages from one day shows
   * exactly one.
   */
  lemma SeparatorRuns(labels: seq<string>)
    requires forall i :: 0 <= i < |labels| ==> labels[i] != ""
    ensures |labels| > 0 ==> ShowSeparator(labels, 0)
    ensures (forall i :: 0 <= i < |labels| ==> labels[i] == labels[0]) ==>
              forall i :: 0 <= i < |labels| ==> (ShowSeparator(labels, i) <==> i == 0)
  {
  }

  // ------------------------------------------------------------ panel state

  /** The `send_message` payload. */
  datatype Outgoing = Outgoing(teamId: int, email: string, message: string)

  class ChatBoxState {
    var messages: seq<ChatMessage>
    var newMessage: string

    constructor ()
      ensures messages == [] && newMessage == ""
    {
      messages, newMessage := [], "";
    }

    /** `setMessages(adjusted)`: the loaded history replaces the list. */
    method LoadHistory(stored: seq<ChatMessage>)
      modifies this
      ensures messages == AdjustHistory(stored) && newMessage == old(newMessage)
    {
      messages := AdjustHistory(stored);
    }

    /** A `new_message` event: appended at the end, earlier messages untouched. */
    method ReceiveMessage(msg: ChatMessage)
      modifies this
      ensures |messages| == |old(messages)| + 1
      ensures messages[..|old(messages)|] == old(messages) && messages[|old(messages)|] == msg
      ensures newMessage == old(newMessage)
    {
      messages := messages + [msg];
    }

    /** Typing in the input. */
    method SetInput(text: string)
      modifies this
      ensures newMessage == text && messages == old(messages)
    {
      newMessage := text;
    }

    /**
     * `handleSend`: an input that is empty or whitespace only sends nothing
     * and stays; anything else is sent once, untrimmed, and the input is
     * cleared. The list itself waits for the server's echo.
     */
    method Send(teamId: int, userEmail: string) returns (emitted: Option<Outgoing>)
      modifies this
      ensures emitted.None? <==> AllWhitespace(old(newMessage))
      ensures emitted.None? ==> newMessage == old(newMessage)
      ensures emitted.Some? ==> emitted.value == Outgoing(teamId, userEmail, old(newMessage)) && newMessage == ""
      ensures messages == old(messages)
    {
      TrimEmptyIff(newMessage);
      if Trim(newMessage) != "" {
        emitted := Some(Outgoing(teamId, userEmail, newMessage));
        newMessage := "";
      } else {
        emitted := None;
      }
    }
  }
}
