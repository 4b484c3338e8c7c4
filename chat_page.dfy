/** ChatPage (src/App.jsx): four state cells and the send() handler, which
    the `await` on the reply request splits into a synchronous start and one
    of two completions. */
module Chat {
  import opened Transcript
  import opened JsText

  const GeneratingToast: string := "Generating response\U{2026}"
  const FailedToast: string := "Message failed to send. Retry?"

  /** The guard of send(): it does anything only when the trimmed input is
      non-empty and no send is in flight, that is, when the input holds some
      non-whitespace character and `sending` is false. */
  function SendAllowed(input: string, sending: bool): (ok: bool)
    ensures ok <==> !sending && exists k :: 0 <= k < |input| && !IsWhitespace(input[k])
  {
    Trim(input) != [] && !sending
  }

  /** The transcript right after a send starts: the old transcript, then the
      user's record, then the placeholder. */
  lemma StartSendShape(m: seq<Message>, now: int, text: string, typingId: int)
    ensures var r := m + [UserMessage(now, text)] + [Placeholder(typingId)];
            |r| == |m| + 2 && r[..|m|] == m
            && r[|m|].role == User && r[|m|].id == now && r[|m|].text == text
            && r[|m|].status == Some(Sending) && !r[|m|].typing
            && r[|m| + 1].role == Bot && r[|m| + 1].id == typingId
            && r[|m| + 1].typing && r[|m| + 1].text == ""
            && TypingCount(r) == TypingCount(m) + 1
  {
    StartAddsOnePlaceholder(m, now, text, typingId);
  }

  class ChatPage {
    var input: string
    var sending: bool
    var messages: seq<Message>
    var toast: string
    /** The user record that a suspended send() holds in its local `userMsg`
        while it awaits the reply; None when no send is suspended. */
    var pending: Option<Message>

    /** Only send() sets `sending`, and it holds exactly across the await. */
    ghost predicate Valid()
      reads this
    {
      (sending <==> pending.Some?)
      && (pending.Some? ==> pending.value.role == User && pending.value.status == Some(Sending))
    }

    /** The lazy initial state: the stored transcript when there is one,
        otherwise the seed; empty input, no send, no notice. */
    constructor (stored: Option<seq<Message>>)
      ensures Valid()
      ensures messages == (if stored.Some? then stored.value else Seed)
      ensures input == "" && !sending && toast == "" && pending == None
    {
      input := "";
      sending := false;
      messages := if stored.Some? then stored.value else Seed;
      toast := "";
      pending := None;
    }

    /** Typing in the composer, or picking a suggestion. */
    method SetInput(s: string)
      requires Valid()
      modifies this`input
      ensures Valid()
      ensures input == s
    {
      input := s;
    }

    /** send() up to its await. When the guard fails nothing changes and no
        request is made; otherwise the transcript gains the user's record
        (id `now`, trimmed text, status sending) and the placeholder (id
        `nowTyping + 1`, read from a second clock call), the input is cleared,
        `sending` is set, the notice reads "Generating response…", and the
        returned request carries the trimmed text. */
    method StartSend(now: int, nowTyping: int) returns (request: Option<string>)
      requires Valid()
      modifies this
      ensures Valid()
      ensures !SendAllowed(old(input), old(sending)) ==>
                request == None && unchanged(this)
      ensures SendAllowed(old(input), old(sending)) ==>
                var text := Trim(old(input));
                && request == Some(text)
                && messages == old(messages) + [UserMessage(now, text)] + [Placeholder(nowTyping + 1)]
                && input == "" && sending && toast == GeneratingToast
                && pending == Some(UserMessage(now, text))
                && TypingCount(messages) == TypingCount(old(messages)) + 1
    {
      if Trim(input) == [] || sending {
        return None;
      }
      var text := Trim(input);
      var userMsg := UserMessage(now, text);
      StartAddsOnePlaceholder(messages, now, text, nowTyping + 1);
      sending := true;
      messages := messages + [userMsg];
      input := "";
      toast := GeneratingToast;
      messages := messages + [Placeholder(nowTyping + 1)];
      pending := Some(userMsg);
      request := Some(text);
    }

    /** send() after a successful response: the success transform with the
        reply id `nowReply + 2`, the notice cleared, `sending` released. The
        input is whatever the user typed meanwhile. */
    method CompleteSuccess(reply: string, nowReply: int)
      requires Valid() && pending.Some?
      modifies this
      ensures Valid()
      ensures messages == OnSuccess(old(messages), old(pending).value.id, reply, nowReply + 2)
      ensures TypingCount(messages) == 0
      ensures toast == "" && !sending && pending == None && input == old(input)
    {
      messages := OnSuccess(messages, pending.value.id, reply, nowReply + 2);
      toast := "";
      sending := false;
      pending := None;
    }

    /** send() after a failed request (a non-ok status, a network error or a
        body that is not JSON): the user's record is marked failed, every
        placeholder stays, the failure notice is shown, `sending` released. */
    method CompleteFailure()
      requires Valid() && pending.Some?
      modifies this
      ensures Valid()
      ensures messages == MarkStatus(old(messages), old(pending).value.id, Failed)
      ensures TypingCount(messages) == TypingCount(old(messages))
      ensures toast == FailedToast && !sending && pending == None && input == old(input)
    {
      var marked := MarkStatus(messages, pending.value.id, Failed);
      FailureKeepsPlaceholders(messages, pending.value.id);
      messages := marked;
      toast := FailedToast;
      sending := false;
      pending := None;
    }
  }

  /** The user types `q` and sends it, and the request fails: the transcript
      holds one placeholder more than before, and the page can send again. */
  method SendAndFail(page: ChatPage, q: string, now: int)
    requires page.Valid() && !page.sending
    requires Trim(q) != []
    modifies page
    ensures page.Valid() && !page.sending
    ensures TypingCount(page.messages) == old(TypingCount(page.messages)) + 1
  {
    page.SetInput(q);
    var request := page.StartSend(now, now);
    page.CompleteFailure();
  }

  /** The user types `q` and sends it, and `reply` arrives: no placeholder is
      left, the reply closes the transcript, and the page can send again. */
  method SendAndSucceed(page: ChatPage, q: string, now: int, reply: string)
    requires page.Valid() && !page.sending
    requires Trim(q) != []
    modifies page
    ensures page.Valid() && !page.sending
    ensures TypingCount(page.messages) == 0
    ensures page.messages != [] && page.messages[|page.messages| - 1] == Reply(now + 2, reply)
  {
    page.SetInput(q);
    var request := page.StartSend(now, now);
    page.CompleteSuccess(reply, now);
  }

  /** Two sends that fail, then one that succeeds, on a page restored from a
      stored transcript without placeholders (the seed is one, by
      SeedHasNoPlaceholders): the failures leave two placeholders in the
      transcript, and the success removes both. No question is all
      whitespace. */
  method FailThenRecover(stored: seq<Message>, q1: string, q2: string, q3: string)
    returns (afterFailures: nat, afterSuccess: nat)
    requires TypingCount(stored) == 0
    requires Trim(q1) != []
    requires Trim(q2) != []
    requires Trim(q3) != []
    ensures afterFailures == 2 && afterSuccess == 0
  {
    var page := new ChatPage(Some(stored));
    SendAndFail(page, q1, 1000);
    SendAndFail(page, q2, 2000);
    afterFailures := TypingCount(page.messages);
    SendAndSucceed(page, q3, 3000, "Growth is steady.");
    afterSuccess := TypingCount(page.messages);
  }
}
