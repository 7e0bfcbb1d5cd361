/**
 * The chat component's state cells and its event handlers. Each React
 * setter call becomes an assignment to a field; a request in flight is the
 * gap between HandleSend, which returns the prompt it asks the backend
 * about, and Settle, which is called with however that request ended.
 */
module ChatApp {
  import opened Wrappers
  import opened JsText
  import opened Messages
  import opened Conversation

  /** The name of the icon on the send button. */
  function SendIcon(input: string): string
  {
    if Trim(input) != "" then "send" else "graphic_eq"
  }

  /** The send icon is shown exactly when pressing send would change the conversation. */
  lemma SendIconMatchesGuard(ms: seq<Message>, input: string)
    ensures SendIcon(input) == "send" <==> Send(ms, input) != ms
  {
    SendGuard(ms, input);
  }

  /** The `findIndex` scan for the first placeholder. */
  method FindIndexLoading(copy: seq<Message>) returns (idx: int)
    ensures idx == -1 <==> NoLoading(copy)
    ensures 0 <= idx ==> idx < |copy| && IsLoading(copy[idx])
    ensures forall k :: 0 <= k < idx ==> !IsLoading(copy[k])
    ensures idx == FirstLoading(copy)
  {
    var i := 0;
    while i < |copy|
      invariant 0 <= i <= |copy|
      invariant forall k :: 0 <= k < i ==> !IsLoading(copy[k])
    {
      if IsLoading(copy[i]) {
        return i;
      }
      i := i + 1;
    }
    return -1;
  }

  class App {
    var dark: bool
    var messages: seq<Message>
    var input: string
    var toolsOpen: bool

    /** The initial state: dark theme, no messages, empty input, tools popup closed. */
    constructor ()
      ensures dark && messages == [] && input == "" && !toolsOpen
    {
      dark, messages, input, toolsOpen := true, [], "", false;
    }

    /** The text field's change handler. */
    method SetInput(value: string)
      modifies this`input
      ensures input == value
    {
      input := value;
    }

    /**
     * The synchronous part of the send handler. A prompt that trims to
     * nothing is ignored: no request, nothing changes. Otherwise the user
     * entry and a placeholder are appended, the input is cleared, and the
     * trimmed prompt is what the request carries.
     */
    method HandleSend() returns (prompt: Option<string>)
      modifies this`messages, this`input
      ensures prompt.None? <==> AllTrimmable(old(input))
      ensures prompt.None? ==> messages == old(messages) && input == old(input)
      ensures prompt.Some? ==>
                && prompt.value == Trim(old(input)) && prompt.value != ""
                && messages == old(messages) + [Message(User, prompt.value), Message(Loading, LoadingText)]
                && input == ""
      ensures messages == Send(old(messages), old(input))
    {
      var chat := Trim(input);
      if chat == "" {
        return None;
      }
      messages := messages + [Message(User, chat), Message(Loading, LoadingText)];
      input := "";
      prompt := Some(chat);
    }

    /**
     * The list updater shared by the success and the failure branch: copy
     * the list, find the first placeholder, replace it by the assistant
     * entry, or append that entry when there is none.
     */
    method ResolveWith(text: string)
      modifies this`messages
      ensures messages == Resolved(old(messages), text)
      ensures |messages| == |old(messages)| + (if NoLoading(old(messages)) then 1 else 0)
    {
      var copy := messages;
      var idx := FindIndexLoading(copy);
      if idx != -1 {
        copy := copy[idx := Message(Vedra, text)];
      } else {
        copy := copy + [Message(Vedra, text)];
      }
      messages := copy;
    }

    /** The asynchronous end of the send handler: the reply text, then the list updater. */
    method Settle(outcome: Outcome)
      modifies this`messages
      ensures messages == Resolved(old(messages), ReplyText(outcome))
    {
      ResolveWith(ReplyText(outcome));
    }

    /** The new-chat button, with the answer to its confirmation dialog. */
    method StartNewChat(confirmed: bool)
      modifies this`messages, this`input, this`toolsOpen
      ensures confirmed ==> messages == [] && input == "" && !toolsOpen
      ensures !confirmed ==> messages == old(messages) && input == old(input) && toolsOpen == old(toolsOpen)
    {
      if !confirmed {
        return;
      }
      messages := [];
      input := "";
      toolsOpen := false;
    }

    /** The theme button. */
    method ToggleDark()
      modifies this`dark
      ensures dark == !old(dark)
    {
      dark := !dark;
    }

    /** The tools button. */
    method ToggleTools()
      modifies this`toolsOpen
      ensures toolsOpen == !old(toolsOpen)
    {
      toolsOpen := !toolsOpen;
    }
  }

  /**
   * A turn driven through the component: a prompt typed and sent, then
   * the request ending. On a list without placeholders the conversation gains the trimmed prompt and the
   * reply, the input is cleared, and the theme and popup are untouched.
   * A blank prompt leaves the conversation as it was and the input as typed.
   */
  method TurnThroughApp(app: App, typed: string, outcome: Outcome) returns (prompt: Option<string>)
    requires NoLoading(app.messages)
    modifies app
    ensures prompt.Some? <==> !AllTrimmable(typed)
    ensures prompt.None? ==> app.messages == old(app.messages) && app.input == typed
    ensures prompt.Some? ==>
              && app.messages == old(app.messages) + [Message(User, Trim(typed)), Message(Vedra, ReplyText(outcome))]
              && app.input == "" && !HeaderShown(app.messages)
    ensures app.dark == old(app.dark) && app.toolsOpen == old(app.toolsOpen)
  {
    app.SetInput(typed);
    prompt := app.HandleSend();
    if prompt.Some? {
      app.Settle(outcome);
      SendThenResolve(old(app.messages), typed, ReplyText(outcome));
    }
  }
}
