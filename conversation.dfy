/**
 * The message list as a value: the edits a turn makes to it (the append of
 * the user entry and its placeholder, and the find-first-placeholder
 * replace-or-append that resolves a request), and what sequences of such
 * edits do to it.
 */
module Conversation {
  import opened JsText
  import opened Messages

  predicate IsLoading(m: Message)
  {
    m.sender == Loading
  }

  predicate NoLoading(ms: seq<Message>)
  {
    forall k :: 0 <= k < |ms| ==> !IsLoading(ms[k])
  }

  /**
   * `findIndex` for a loading entry: the lowest index holding one, or -1
   * when there is none.
   */
  function FirstLoading(ms: seq<Message>): (r: int)
    ensures -1 <= r < |ms|
    ensures r == -1 <==> NoLoading(ms)
    ensures 0 <= r ==> IsLoading(ms[r]) && forall k :: 0 <= k < r ==> !IsLoading(ms[k])
  {
    if ms == [] then -1
    else if IsLoading(ms[0]) then 0
    else
      var t := FirstLoading(ms[1..]);
      assert forall k :: 1 <= k < |ms| ==> ms[k] == ms[1..][k - 1];
      if t == -1 then -1 else t + 1
  }

  /** The number of placeholders in the list. */
  function CountLoading(ms: seq<Message>): nat
  {
    if ms == [] then 0 else (if IsLoading(ms[0]) then 1 else 0) + CountLoading(ms[1..])
  }

  /** The entries a turn adds: the trimmed prompt and the placeholder for its reply. */
  function AppendTurn(ms: seq<Message>, chat: string): seq<Message>
  {
    ms + [Message(User, chat), Message(Loading, LoadingText)]
  }

  /** The send step on the list: nothing for a blank prompt, else one turn. */
  function Send(ms: seq<Message>, raw: string): seq<Message>
  {
    var chat := Trim(raw);
    if chat == "" then ms else AppendTurn(ms, chat)
  }

  /**
   * The updater that resolves a request: the first placeholder becomes the
   * assistant entry; with no placeholder the entry is appended.
   */
  function Resolved(ms: seq<Message>, text: string): seq<Message>
  {
    var idx := FirstLoading(ms);
    if idx != -1 then ms[idx := Message(Vedra, text)] else ms + [Message(Vedra, text)]
  }

  /** The welcome header is rendered exactly while the list is empty. */
  predicate HeaderShown(ms: seq<Message>)
  {
    |ms| == 0
  }

  // ---------------------------------------------------------------------
  // One step at a time
  // ---------------------------------------------------------------------

  /** A send changes the list exactly when the prompt is not all white space. */
  lemma SendGuard(ms: seq<Message>, raw: string)
    ensures Send(ms, raw) == ms <==> AllTrimmable(raw)
  {
    if !AllTrimmable(raw) {
      assert |Send(ms, raw)| == |ms| + 2;
    }
  }

  /**
   * A send of a prompt that is not blank keeps every earlier entry and adds
   * exactly the user entry with the trimmed prompt and then the placeholder.
   */
  lemma SendAppendsTurn(ms: seq<Message>, raw: string)
    requires !AllTrimmable(raw)
    ensures var r := Send(ms, raw);
      && |r| == |ms| + 2 && r[..|ms|] == ms
      && r[|ms|] == Message(User, Trim(raw)) && Trim(raw) != ""
      && r[|ms| + 1] == Message(Loading, LoadingText)
  {
  }

  /**
   * With a placeholder at index i and none before it, resolving writes the
   * assistant entry at i and leaves the length and all other entries alone.
   */
  lemma ResolveReplacesFirst(ms: seq<Message>, text: string, i: int)
    requires 0 <= i < |ms| && IsLoading(ms[i])
    requires forall k :: 0 <= k < i ==> !IsLoading(ms[k])
    ensures var r := Resolved(ms, text);
      && |r| == |ms| && r[i] == Message(Vedra, text)
      && forall k :: 0 <= k < |ms| && k != i ==> r[k] == ms[k]
  {
    assert FirstLoading(ms) == i;
  }

  /** With no placeholder, resolving appends the assistant entry after all the others. */
  lemma ResolveAppends(ms: seq<Message>, text: string)
    requires NoLoading(ms)
    ensures var r := Resolved(ms, text);
      && |r| == |ms| + 1 && r[..|ms|] == ms && r[|ms|] == Message(Vedra, text)
  {
  }

  /** Resolving never creates a placeholder: each one afterwards was already there. */
  lemma ResolveAddsNoLoading(ms: seq<Message>, text: string)
    ensures var r := Resolved(ms, text);
      forall k :: 0 <= k < |r| && IsLoading(r[k]) ==> k < |ms| && IsLoading(ms[k])
  {
  }

  lemma {:induction false} CountConcat(a: seq<Message>, b: seq<Message>)
    ensures CountLoading(a + b) == CountLoading(a) + CountLoading(b)
  {
    if a == [] {
      assert a + b == b;
    } else {
      assert (a + b)[1..] == a[1..] + b;
      CountConcat(a[1..], b);
    }
  }

  /** There is a placeholder exactly when the count is positive. */
  lemma {:induction false} CountPositive(ms: seq<Message>)
    ensures CountLoading(ms) == 0 <==> NoLoading(ms)
  {
    if ms != [] {
      CountPositive(ms[1..]);
      assert forall k :: 1 <= k < |ms| ==> ms[k] == ms[1..][k - 1];
    }
  }

  /** Overwriting entry i moves the count by what leaves and what arrives there. */
  lemma CountUpdate(ms: seq<Message>, i: int, m: Message)
    requires 0 <= i < |ms|
    ensures CountLoading(ms[i := m]) + (if IsLoading(ms[i]) then 1 else 0)
         == CountLoading(ms) + (if IsLoading(m) then 1 else 0)
  {
    var pre, post := ms[..i], ms[i + 1..];
    assert ms == pre + ([ms[i]] + post);
    assert ms[i := m] == pre + ([m] + post);
    CountConcat(pre, [ms[i]] + post);
    CountConcat(pre, [m] + post);
    CountConcat([ms[i]], post);
    CountConcat([m], post);
  }

  /** A send of a prompt that is not blank adds exactly one placeholder. */
  lemma SendCount(ms: seq<Message>, raw: string)
    ensures CountLoading(Send(ms, raw)) == CountLoading(ms) + (if AllTrimmable(raw) then 0 else 1)
  {
    if !AllTrimmable(raw) {
      var turn := [Message(User, Trim(raw)), Message(Loading, LoadingText)];
      assert Send(ms, raw) == ms + turn;
      assert turn[1..][1..] == [];
      assert turn[1..] == [Message(Loading, LoadingText)];
      assert CountLoading(turn[1..]) == 1;
      CountConcat(ms, turn);
    }
  }

  /** Resolving removes one placeholder when there is one and leaves none when there was none. */
  lemma ResolveCount(ms: seq<Message>, text: string)
    ensures CountLoading(Resolved(ms, text)) == if CountLoading(ms) > 0 then CountLoading(ms) - 1 else 0
  {
    CountPositive(ms);
    var idx := FirstLoading(ms);
    if idx != -1 {
      CountUpdate(ms, idx, Message(Vedra, text));
    } else {
      CountConcat(ms, [Message(Vedra, text)]);
    }
  }

  // ---------------------------------------------------------------------
  // Sequences of events
  // ---------------------------------------------------------------------

  /**
   * What can happen to the list: a submitted prompt, the end of a request,
   * and the new-chat button (with the answer to its confirmation dialog).
   * Requests end in any order relative to later sends and resets.
   */
  datatype Event = Submit(raw: string) | Settle(outcome: Outcome) | NewChat(confirmed: bool)

  function Step(ms: seq<Message>, e: Event): seq<Message>
  {
    match e
    case Submit(raw) => Send(ms, raw)
    case Settle(o) => Resolved(ms, ReplyText(o))
    case NewChat(confirmed) => if confirmed then [] else ms
  }

  /** The list after the events, applied first to last. */
  function Run(ms: seq<Message>, es: seq<Event>): seq<Message>
    decreases |es|
  {
    if es == [] then ms else Step(Run(ms, es[..|es| - 1]), es[|es| - 1])
  }

  /** The number of submits that issue a request. */
  function Sends(es: seq<Event>): nat
    decreases |es|
  {
    if es == [] then 0
    else Sends(es[..|es| - 1]) + (if es[|es| - 1].Submit? && !AllTrimmable(es[|es| - 1].raw) then 1 else 0)
  }

  /** The number of requests that end. */
  function Settles(es: seq<Event>): nat
    decreases |es|
  {
    if es == [] then 0 else Settles(es[..|es| - 1]) + (if es[|es| - 1].Settle? then 1 else 0)
  }

  predicate NoReset(es: seq<Event>)
  {
    forall k :: 0 <= k < |es| ==> es[k] != NewChat(true)
  }

  /** In no prefix have more requests ended than the c placeholders at the start plus the sends. */
  predicate SettlesCovered(c: nat, es: seq<Event>)
  {
    forall n :: 0 <= n <= |es| ==> Settles(es[..n]) <= c + Sends(es[..n])
  }

  /**
   * Without a new chat, and with no request ending before it was issued,
   * the placeholders number those at the start plus the sends minus the
   * requests that have ended.
   */
  lemma {:induction false} LoadingBalance(ms: seq<Message>, es: seq<Event>)
    requires NoReset(es) && SettlesCovered(CountLoading(ms), es)
    ensures CountLoading(Run(ms, es)) == CountLoading(ms) + Sends(es) - Settles(es)
    decreases |es|
  {
    if es != [] {
      var init, e := es[..|es| - 1], es[|es| - 1];
      assert forall n :: 0 <= n <= |init| ==> init[..n] == es[..n];
      assert es[..|es|] == es;
      LoadingBalance(ms, init);
      var before := Run(ms, init);
      match e
      case Submit(raw) => SendCount(before, raw);
      case Settle(o) => ResolveCount(before, ReplyText(o));
      case NewChat(confirmed) =>
    }
  }

  /** Starting from an empty chat, once every request has ended no placeholder is left. */
  lemma AllSettledNoLoading(es: seq<Event>)
    requires NoReset(es) && SettlesCovered(0, es) && Settles(es) == Sends(es)
    ensures NoLoading(Run([], es))
  {
    LoadingBalance([], es);
    CountPositive(Run([], es));
  }

  /** Two events, applied in order. */
  lemma RunTwo(ms: seq<Message>, e1: Event, e2: Event)
    ensures Run(ms, [e1, e2]) == Step(Step(ms, e1), e2)
  {
    var es := [e1, e2];
    assert [e1][..0] == [];
    assert Run(ms, [e1]) == Step(ms, e1);
    assert es[..1] == [e1];
  }

  /** Three events, applied in order. */
  lemma RunThree(ms: seq<Message>, e1: Event, e2: Event, e3: Event)
    ensures Run(ms, [e1, e2, e3]) == Step(Step(Step(ms, e1), e2), e3)
  {
    var es := [e1, e2, e3];
    assert es[..2] == [e1, e2];
    RunTwo(ms, e1, e2);
  }

  /** A send on a list without placeholders, then its resolution. */
  lemma SendThenResolve(ms: seq<Message>, raw: string, text: string)
    requires NoLoading(ms) && !AllTrimmable(raw)
    ensures Resolved(Send(ms, raw), text) == ms + [Message(User, Trim(raw)), Message(Vedra, text)]
  {
    var sent := AppendTurn(ms, Trim(raw));
    assert Send(ms, raw) == sent;
    ResolveReplacesFirst(sent, text, |ms| + 1);
  }

  /**
   * One turn on a list without placeholders: the user entry is followed by
   * the assistant entry and nothing is left waiting.
   */
  lemma CompleteTurn(ms: seq<Message>, raw: string, o: Outcome)
    requires NoLoading(ms) && !AllTrimmable(raw)
    ensures Run(ms, [Submit(raw), Settle(o)])
         == ms + [Message(User, Trim(raw)), Message(Vedra, ReplyText(o))]
  {
    RunTwo(ms, Submit(raw), Settle(o));
    SendThenResolve(ms, raw, ReplyText(o));
  }

  /**
   * Two prompts sent before either reply: the first reply to arrive fills
   * the earlier placeholder, whichever request it answers, and the later
   * placeholder stays.
   */
  lemma CrossedReplies(ms: seq<Message>, a: string, b: string, o: Outcome)
    requires NoLoading(ms) && !AllTrimmable(a) && !AllTrimmable(b)
    ensures Run(ms, [Submit(a), Submit(b), Settle(o)])
         == ms + [Message(User, Trim(a)), Message(Vedra, ReplyText(o)),
                  Message(User, Trim(b)), Message(Loading, LoadingText)]
  {
    RunThree(ms, Submit(a), Submit(b), Settle(o));
    var one := Send(ms, a);
    assert one == AppendTurn(ms, Trim(a));
    assert Send(one, b) == AppendTurn(one, Trim(b));
    ResolveEarlierTurn(ms, Trim(a), Trim(b), ReplyText(o));
  }

  lemma ResolveEarlierTurn(ms: seq<Message>, ta: string, tb: string, t: string)
    requires NoLoading(ms)
    ensures Resolved(AppendTurn(AppendTurn(ms, ta), tb), t)
         == ms + [Message(User, ta), Message(Vedra, t), Message(User, tb), Message(Loading, LoadingText)]
  {
    var two := AppendTurn(AppendTurn(ms, ta), tb);
    assert forall k :: 0 <= k < |ms| ==> two[k] == ms[k];
    ResolveReplacesFirst(two, t, |ms| + 1);
  }

  /**
   * A request that ends when its turn's placeholder is already filled
   * appends a second assistant entry. The handler settles each of its own
   * requests once, so on the page the second `Settle` is the end of an
   * earlier request whose placeholder is gone (one issued before a reset,
   * or one whose placeholder a crossed reply took), arriving after this
   * turn's own reply.
   */
  lemma DuplicateSettle(ms: seq<Message>, raw: string, o1: Outcome, o2: Outcome)
    requires NoLoading(ms) && !AllTrimmable(raw)
    ensures Run(ms, [Submit(raw), Settle(o1), Settle(o2)])
         == ms + [Message(User, Trim(raw)), Message(Vedra, ReplyText(o1)), Message(Vedra, ReplyText(o2))]
  {
    RunThree(ms, Submit(raw), Settle(o1), Settle(o2));
    assert Send(ms, raw) == AppendTurn(ms, Trim(raw));
    ResolveTwice(ms, Trim(raw), ReplyText(o1), ReplyText(o2));
  }

  lemma ResolveTwice(ms: seq<Message>, chat: string, t1: string, t2: string)
    requires NoLoading(ms)
    ensures Resolved(Resolved(AppendTurn(ms, chat), t1), t2)
         == ms + [Message(User, chat), Message(Vedra, t1), Message(Vedra, t2)]
  {
    var sent := AppendTurn(ms, chat);
    ResolveReplacesFirst(sent, t1, |ms| + 1);
    var after := ms + [Message(User, chat), Message(Vedra, t1)];
    assert Resolved(sent, t1) == after;
    assert NoLoading(after);
    ResolveAppends(after, t2);
    assert after + [Message(Vedra, t2)] == ms + [Message(User, chat), Message(Vedra, t1), Message(Vedra, t2)];
  }

  /**
   * A reply that arrives after a confirmed new chat is appended to the
   * emptied list: the conversation then opens with an assistant entry that
   * answers a prompt no longer shown.
   */
  lemma StaleReplyAfterReset(raw: string, o: Outcome)
    requires !AllTrimmable(raw)
    ensures Run([], [Submit(raw), NewChat(true), Settle(o)]) == [Message(Vedra, ReplyText(o))]
  {
    RunThree([], Submit(raw), NewChat(true), Settle(o));
    var t := ReplyText(o);
    assert Step(Step([], Submit(raw)), NewChat(true)) == [];
    ResolveAppends([], t);
  }

  /**
   * The header: shown after a confirmed new chat, hidden after any request
   * ends, and after a send shown exactly when it was shown before and the
   * prompt was blank.
   */
  lemma HeaderRule(ms: seq<Message>, raw: string, text: string)
    ensures HeaderShown(Step(ms, NewChat(true)))
    ensures !HeaderShown(Resolved(ms, text))
    ensures HeaderShown(Send(ms, raw)) <==> HeaderShown(ms) && AllTrimmable(raw)
  {
    SendGuard(ms, raw);
  }
}
