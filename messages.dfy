/**
 * The entries of the chat transcript and the text a finished request
 * contributes to it.
 */
module Messages {
  import opened Wrappers
  import opened BoldMarkdown

  /** Who an entry is from: the person typing, the assistant, or a reply still on its way. */
  datatype Sender = User | Vedra | Loading

  datatype Message = Message(sender: Sender, text: string)

  /** The text of the placeholder that stands in for a reply not yet received. */
  const LoadingText: string := "Loading..."

  /** Shown when the response carries no reply text. */
  const NoResponseText: string := "Oops, no response."

  /** Shown when the request or the handling of its response throws. */
  const NetworkErrorText: string := "Network error. Try again."

  /**
   * How a request ended. `Reply(text)` is a response whose JSON body was
   * read: `text` is the string at candidates[0].content.parts[0].text, or
   * None when any step of that path is missing or the value there is a
   * falsy non-string (null, false, 0, NaN), which `||` replaces by the
   * fallback just as it does the empty string. `Failure` is everything
   * that throws: the fetch, the JSON parse, or the replace on a truthy
   * reply value that is not a string (a number, true, an object, an array).
   */
  datatype Outcome = Reply(text: Option<string>) | Failure

  /** The reply path read with optional chaining and `||` "Oops, no response.". */
  function RawReply(text: Option<string>): string
  {
    if text.Some? && text.value != "" then text.value else NoResponseText
  }

  /** The text of the assistant entry that resolves a request. */
  function ReplyText(o: Outcome): string
  {
    match o
    case Reply(text) => StripBold(RawReply(text))
    case Failure => NetworkErrorText
  }

  /**
   * The three ways a request ends: a missing or empty reply gives the
   * fixed fallback, a failure gives the fixed error text (neither is
   * altered by stripping), and a reply text is shown with its bold
   * markers stripped, never longer than it arrived.
   */
  lemma ReplyTextCases(o: Outcome)
    ensures o.Failure? ==> ReplyText(o) == NetworkErrorText
    ensures o.Reply? && (o.text.None? || o.text.value == "") ==> ReplyText(o) == NoResponseText
    ensures o.Reply? && o.text.Some? && o.text.value != "" ==>
              ReplyText(o) == StripBold(o.text.value) && |ReplyText(o)| <= |o.text.value|
  {
    WithoutMarkerUnstripped(NoResponseText);
  }

  /** Neither fixed text contains a bold marker, so stripping leaves both as they are. */
  lemma FixedTextsUnstripped()
    ensures StripBold(NoResponseText) == NoResponseText
    ensures StripBold(NetworkErrorText) == NetworkErrorText
  {
    WithoutMarkerUnstripped(NoResponseText);
    WithoutMarkerUnstripped(NetworkErrorText);
  }

  lemma WithoutMarkerUnstripped(s: string)
    requires s == NoResponseText || s == NetworkErrorText
    ensures StripBold(s) == s
  {
    NoMarkerUnchanged(s);
  }
}
