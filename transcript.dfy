/** The chat transcript of ChatPage (src/App.jsx) and the pure list transforms
    that send() applies to it through setMessages. */
module Transcript {

  datatype Option<+T> = None | Some(value: T)

  datatype Role = System | User | Bot

  datatype Status = Sending | Sent | Failed

  /** One chat record. `typing` stands for the optional flag of the placeholder
      (absent, hence falsy, on every other record); `status` and `source` are
      the optional fields of user and reply records. */
  datatype Message = Message(
    id: int,
    role: Role,
    text: string,
    status: Option<Status>,
    typing: bool,
    source: Option<string>)

  /** The label every reply carries. */
  const ReplySource: string := "AI \U{2022} Model v1"

  /** The transcript shown when nothing is stored under the storage key. */
  const Seed: seq<Message> := [
    Message(1, System, "AI \U{2022} Model v1 ready", None, false, None),
    Message(2, User, "Hi, can you summarize our growth?", None, false, None),
    Message(3, Bot, "Over the last 30 days, users grew 4.2% with stable sessions.", None, false, None)
  ]

  /** The seed transcript holds no placeholder. */
  lemma SeedHasNoPlaceholders()
    ensures TypingCount(Seed) == 0
  {
    assert Seed[..2][..1][..0] == [];
  }

  /** The optimistic record of what the user typed. */
  function UserMessage(id: int, text: string): Message {
    Message(id, User, text, Some(Sending), false, None)
  }

  /** The stand-in for the reply that has not arrived yet. */
  function Placeholder(id: int): Message {
    Message(id, Bot, "", None, true, None)
  }

  /** The reply record built from the response payload. */
  function Reply(id: int, text: string): Message {
    Message(id, Bot, text, None, false, Some(ReplySource))
  }

  /** The number of typing placeholders in `m`. */
  function TypingCount(m: seq<Message>): (c: nat)
    ensures c <= |m|
    ensures c == 0 <==> forall i :: 0 <= i < |m| ==> !m[i].typing
  {
    if m == [] then 0
    else TypingCount(m[..|m| - 1]) + (if m[|m| - 1].typing then 1 else 0)
  }

  /** `m.map(x => x.id === id ? {...x, status: st} : x)`: the same list with
      the status of every record carrying `id` replaced by `st` and every other
      record untouched. */
  function MarkStatus(m: seq<Message>, id: int, st: Status): (r: seq<Message>)
    ensures |r| == |m|
    ensures forall i :: 0 <= i < |m| ==> r[i] == Marked(m[i], id, st)
  {
    if m == [] then [] else MarkStatus(m[..|m| - 1], id, st) + [Marked(m[|m| - 1], id, st)]
  }

  /** One step of that map: the record with its status replaced when it
      carries `id`, the record itself otherwise. */
  function Marked(x: Message, id: int, st: Status): Message {
    if x.id == id then x.(status := Some(st)) else x
  }

  /** `m.filter(x => !x.typing)`: the list without its typing placeholders. */
  function RemoveTyping(m: seq<Message>): (r: seq<Message>)
    ensures |r| <= |m|
  {
    if m == [] then []
    else
      var x := m[|m| - 1];
      RemoveTyping(m[..|m| - 1]) + (if x.typing then [] else [x])
  }

  /** The positions of the records of `m` that are not placeholders, in
      increasing order: a reference description of what the filter keeps
      (KeptIndicesSpec states it). */
  function KeptIndices(m: seq<Message>): seq<nat> {
    if m == [] then []
    else KeptIndices(m[..|m| - 1]) + (if m[|m| - 1].typing then [] else [|m| - 1])
  }

  /** KeptIndices lists, in strictly increasing order, every position of `m`
      that holds a record other than a placeholder, and no other position. */
  lemma KeptIndicesSpec(m: seq<Message>)
    ensures var idx := KeptIndices(m);
            |idx| == |m| - TypingCount(m)
            && (forall k :: 0 <= k < |idx| ==> idx[k] < |m| && !m[idx[k]].typing)
            && (forall k, l :: 0 <= k < l < |idx| ==> idx[k] < idx[l])
            && (forall i :: 0 <= i < |m| && !m[i].typing ==> i in idx)
  {
    KeptIndicesLength(m);
    KeptIndicesBounded(m);
    KeptIndicesIncreasing(m);
    KeptIndicesCover(m);
  }

  lemma {:induction false} KeptIndicesLength(m: seq<Message>)
    ensures |KeptIndices(m)| == |m| - TypingCount(m)
  {
    if m != [] {
      KeptIndicesLength(m[..|m| - 1]);
    }
  }

  lemma {:induction false} KeptIndicesBounded(m: seq<Message>)
    ensures forall k :: 0 <= k < |KeptIndices(m)| ==>
              KeptIndices(m)[k] < |m| && !m[KeptIndices(m)[k]].typing
  {
    if m != [] {
      var init := m[..|m| - 1];
      KeptIndicesBounded(init);
      var rest, idx := KeptIndices(init), KeptIndices(m);
      forall k | 0 <= k < |idx| ensures idx[k] < |m| && !m[idx[k]].typing {
        if k < |rest| {
          assert idx[k] == rest[k];
          assert m[rest[k]] == init[rest[k]];
        }
      }
    }
  }

  lemma {:induction false} KeptIndicesIncreasing(m: seq<Message>)
    ensures forall k, l :: 0 <= k < l < |KeptIndices(m)| ==> KeptIndices(m)[k] < KeptIndices(m)[l]
  {
    if m != [] {
      var init := m[..|m| - 1];
      KeptIndicesIncreasing(init);
      KeptIndicesBounded(init);
      var rest, idx := KeptIndices(init), KeptIndices(m);
      forall k, l | 0 <= k < l < |idx| ensures idx[k] < idx[l] {
        assert idx[k] == rest[k];
        if l < |rest| {
          assert idx[l] == rest[l];
        } else {
          assert idx[l] == |m| - 1;
        }
      }
    }
  }

  lemma {:induction false} KeptIndicesCover(m: seq<Message>)
    ensures forall i :: 0 <= i < |m| && !m[i].typing ==> i in KeptIndices(m)
  {
    if m != [] {
      var init := m[..|m| - 1];
      KeptIndicesCover(init);
      var rest, idx := KeptIndices(init), KeptIndices(m);
      forall i | 0 <= i < |m| && !m[i].typing ensures i in idx {
        if i < |m| - 1 {
          assert m[i] == init[i];
          var k :| 0 <= k < |rest| && rest[k] == i;
          assert idx[k] == i;
        } else {
          assert idx[|idx| - 1] == i;
        }
      }
    }
  }

  /** The success transform: mark the user's record sent, drop every
      placeholder, append the reply. */
  function OnSuccess(m: seq<Message>, userId: int, reply: string, replyId: int): (r: seq<Message>)
    ensures |r| == |m| - TypingCount(m) + 1
    ensures TypingCount(r) == 0
    ensures r[|r| - 1] == Reply(replyId, reply)
  {
    var marked := MarkStatus(m, userId, Sent);
    SameTypingFlags(m, marked);
    RemoveTypingCount(marked);
    TypingCountAppend(RemoveTyping(marked), [Reply(replyId, reply)]);
    RemoveTyping(marked) + [Reply(replyId, reply)]
  }

  /** The filter drops exactly the placeholders: what it returns has none,
      and it is shorter by their number. */
  lemma {:induction false} RemoveTypingCount(m: seq<Message>)
    ensures |RemoveTyping(m)| == |m| - TypingCount(m)
    ensures TypingCount(RemoveTyping(m)) == 0
  {
    if m != [] {
      var init, x := m[..|m| - 1], m[|m| - 1];
      RemoveTypingCount(init);
      TypingCountAppend(RemoveTyping(init), if x.typing then [] else [x]);
    }
  }

  /** A record survives the filter exactly when it is in the list and is not
      a placeholder. */
  lemma {:induction false} RemoveTypingMembers(m: seq<Message>, x: Message)
    ensures x in RemoveTyping(m) <==> x in m && !x.typing
  {
    if m != [] {
      var init := m[..|m| - 1];
      RemoveTypingMembers(init, x);
      assert m == init + [m[|m| - 1]];
    }
  }

  /** The filter keeps exactly the records at KeptIndices(m), in that order. */
  lemma {:induction false} RemoveTypingKeepsOrder(m: seq<Message>)
    ensures |RemoveTyping(m)| == |KeptIndices(m)|
    ensures forall k :: 0 <= k < |KeptIndices(m)| ==>
              KeptIndices(m)[k] < |m| && RemoveTyping(m)[k] == m[KeptIndices(m)[k]]
  {
    KeptIndicesSpec(m);
    if m != [] {
      var init := m[..|m| - 1];
      RemoveTypingKeepsOrder(init);
      KeptIndicesSpec(init);
      var r, idx := RemoveTyping(m), KeptIndices(m);
      forall k | 0 <= k < |idx| ensures r[k] == m[idx[k]] {
        if k < |KeptIndices(init)| {
          assert r[k] == RemoveTyping(init)[k];
          assert idx[k] == KeptIndices(init)[k];
          assert m[idx[k]] == init[idx[k]];
        }
      }
    }
  }

  /** Two lists whose records agree on `typing` have the same placeholders. */
  lemma {:induction false} SameTypingFlags(m: seq<Message>, m': seq<Message>)
    requires |m| == |m'|
    requires forall i :: 0 <= i < |m| ==> m[i].typing == m'[i].typing
    ensures TypingCount(m) == TypingCount(m')
    ensures KeptIndices(m) == KeptIndices(m')
  {
    if m != [] {
      SameTypingFlags(m[..|m| - 1], m'[..|m'| - 1]);
    }
  }

  lemma {:induction false} TypingCountAppend(a: seq<Message>, b: seq<Message>)
    ensures TypingCount(a + b) == TypingCount(a) + TypingCount(b)
    decreases |b|
  {
    if b == [] {
      assert a + b == a;
    } else {
      var ab := a + b;
      assert ab[..|ab| - 1] == a + b[..|b| - 1];
      assert ab[|ab| - 1] == b[|b| - 1];
      TypingCountAppend(a, b[..|b| - 1]);
    }
  }

  lemma {:induction false} RemoveTypingAppend(a: seq<Message>, b: seq<Message>)
    ensures RemoveTyping(a + b) == RemoveTyping(a) + RemoveTyping(b)
    decreases |b|
  {
    if b == [] {
      assert a + b == a;
    } else {
      var ab, x, b' := a + b, b[|b| - 1], b[..|b| - 1];
      assert ab[..|ab| - 1] == a + b';
      assert ab[|ab| - 1] == x;
      RemoveTypingAppend(a, b');
      var tail := if x.typing then [] else [x];
      calc {
        RemoveTyping(ab);
        RemoveTyping(a + b') + tail;
        (RemoveTyping(a) + RemoveTyping(b')) + tail;
        RemoveTyping(a) + (RemoveTyping(b') + tail);
        RemoveTyping(a) + RemoveTyping(b);
      }
    }
  }

  lemma MarkStatusAppend(a: seq<Message>, b: seq<Message>, id: int, st: Status)
    ensures MarkStatus(a + b, id, st) == MarkStatus(a, id, st) + MarkStatus(b, id, st)
  {
    var l, r := MarkStatus(a + b, id, st), MarkStatus(a, id, st) + MarkStatus(b, id, st);
    forall i | 0 <= i < |a + b| ensures l[i] == r[i] {
      if i < |a| { assert (a + b)[i] == a[i]; } else { assert (a + b)[i] == b[i - |a|]; }
    }
  }

  /** A status update for an id that no record carries changes nothing. */
  lemma MarkStatusAbsent(m: seq<Message>, id: int, st: Status)
    requires forall i :: 0 <= i < |m| ==> m[i].id != id
    ensures MarkStatus(m, id, st) == m
  {
    assert forall i :: 0 <= i < |m| ==> MarkStatus(m, id, st)[i] == m[i];
  }

  /** On success, the records that survive are the non-placeholders of `m`
      in their original order, each unchanged except that those carrying the
      user message's id now have status `sent`; the reply comes last. */
  lemma SuccessSurvivors(m: seq<Message>, userId: int, reply: string, replyId: int)
    ensures var r, idx := OnSuccess(m, userId, reply, replyId), KeptIndices(m);
            |r| == |idx| + 1 &&
            forall k :: 0 <= k < |idx| ==>
              idx[k] < |m| && r[k] == Marked(m[idx[k]], userId, Sent)
  {
    var marked := MarkStatus(m, userId, Sent);
    var kept := RemoveTyping(marked);
    SameTypingFlags(m, marked);
    RemoveTypingKeepsOrder(marked);
    OnSuccessOf(m, userId, reply, replyId, marked, kept);
    var r, idx := OnSuccess(m, userId, reply, replyId), KeptIndices(m);
    forall k | 0 <= k < |idx| ensures idx[k] < |m| && r[k] == Marked(m[idx[k]], userId, Sent) {
      assert r[k] == kept[k];
    }
  }

  /** The failure transform keeps the length and every placeholder. */
  lemma FailureKeepsPlaceholders(m: seq<Message>, userId: int)
    ensures var r := MarkStatus(m, userId, Failed);
            |r| == |m| && TypingCount(r) == TypingCount(m)
  {
    SameTypingFlags(m, MarkStatus(m, userId, Failed));
  }

  /** Starting a send appends the user record and exactly one placeholder. */
  lemma StartAddsOnePlaceholder(m: seq<Message>, userId: int, text: string, typingId: int)
    ensures TypingCount(m + [UserMessage(userId, text)] + [Placeholder(typingId)]) == TypingCount(m) + 1
  {
    var u, p := UserMessage(userId, text), Placeholder(typingId);
    assert m + [u] + [p] == m + [u, p];
    TypingCountAppend(m, [u, p]);
    assert [u, p][..1] == [u];
  }

  /** Marking a list with one more record at the end marks that record too. */
  lemma MarkStatusSnoc(m: seq<Message>, x: Message, id: int, st: Status)
    ensures MarkStatus(m + [x], id, st) == MarkStatus(m, id, st) + [Marked(x, id, st)]
  {
    assert (m + [x])[..|m|] == m;
  }

  /** The user record and the placeholder that StartSend appends, after the
      status update for the user record's id: a placeholder whose id differs
      keeps its place unchanged. */
  lemma {:induction false} MarkSendTail(m: seq<Message>, now: int, text: string, typingId: int, st: Status)
    requires forall i :: 0 <= i < |m| ==> m[i].id != now
    ensures MarkStatus(m + [UserMessage(now, text)] + [Placeholder(typingId)], now, st)
            == m + [UserMessage(now, text).(status := Some(st)), Marked(Placeholder(typingId), now, st)]
  {
    var u, p := UserMessage(now, text), Placeholder(typingId);
    var u', p' := Marked(u, now, st), Marked(p, now, st);
    calc {
      MarkStatus(m + [u] + [p], now, st);
      { MarkStatusSnoc(m + [u], p, now, st); }
      MarkStatus(m + [u], now, st) + [p'];
      { MarkStatusSnoc(m, u, now, st); }
      (MarkStatus(m, now, st) + [u']) + [p'];
      { MarkStatusAbsent(m, now, st); }
      (m + [u']) + [p'];
      m + [u', p'];
    }
  }

  /** A send that succeeds, with a fresh id for the user record: the earlier
      records lose their placeholders and are otherwise untouched, and the
      transcript ends with the user's record, now sent, and the reply. */
  lemma SendThenSuccess(m: seq<Message>, now: int, text: string, typingId: int,
                        reply: string, replyId: int)
    requires forall i :: 0 <= i < |m| ==> m[i].id != now
    ensures OnSuccess(m + [UserMessage(now, text)] + [Placeholder(typingId)], now, reply, replyId)
            == RemoveTyping(m) + [UserMessage(now, text).(status := Some(Sent))] + [Reply(replyId, reply)]
  {
    var sent, p' := UserMessage(now, text).(status := Some(Sent)), Marked(Placeholder(typingId), now, Sent);
    MarkSendTail(m, now, text, typingId, Sent);
    RemoveTypingAfterSend(m, sent, p');
    OnSuccessOf(m + [UserMessage(now, text)] + [Placeholder(typingId)], now, reply, replyId,
                m + [sent, p'], RemoveTyping(m) + [sent]);
  }

  lemma OnSuccessOf(m: seq<Message>, userId: int, reply: string, replyId: int,
                    marked: seq<Message>, kept: seq<Message>)
    requires MarkStatus(m, userId, Sent) == marked && RemoveTyping(marked) == kept
    ensures OnSuccess(m, userId, reply, replyId) == kept + [Reply(replyId, reply)]
  {
  }

  lemma RemoveTypingAfterSend(m: seq<Message>, x: Message, p: Message)
    requires !x.typing && p.typing
    ensures RemoveTyping(m + [x, p]) == RemoveTyping(m) + [x]
  {
    RemoveTypingAppend(m, [x, p]);
    DropTrailingPlaceholder(x, p);
  }

  lemma DropTrailingPlaceholder(x: Message, p: Message)
    requires !x.typing && p.typing
    ensures RemoveTyping([x, p]) == [x]
  {
    calc {
      RemoveTyping([x, p]);
      { assert [x, p][..1] == [x]; }
      RemoveTyping([x]);
      { assert [x][..0] == []; }
      RemoveTyping([]) + [x];
    }
  }

  /** A send that fails, with a fresh id for the user record: the earlier
      records are untouched, the user's record is now failed, and the
      placeholder is still there at the end. */
  lemma SendThenFailure(m: seq<Message>, now: int, text: string, typingId: int)
    requires forall i :: 0 <= i < |m| ==> m[i].id != now
    requires typingId != now
    ensures MarkStatus(m + [UserMessage(now, text)] + [Placeholder(typingId)], now, Failed)
            == m + [UserMessage(now, text).(status := Some(Failed)), Placeholder(typingId)]
  {
    MarkSendTail(m, now, text, typingId, Failed);
  }

  /** Two failed sends in a row leave two placeholders behind: the transcript
      does not keep "at most one placeholder" across failures. */
  lemma FailedSendsAccumulatePlaceholders(m: seq<Message>, now1: int, text1: string, typing1: int,
                                          now2: int, text2: string, typing2: int)
    requires TypingCount(m) == 0
    ensures var after1 := MarkStatus(m + [UserMessage(now1, text1)] + [Placeholder(typing1)], now1, Failed);
            var after2 := MarkStatus(after1 + [UserMessage(now2, text2)] + [Placeholder(typing2)], now2, Failed);
            TypingCount(after2) == 2
  {
    var s1 := m + [UserMessage(now1, text1)] + [Placeholder(typing1)];
    StartAddsOnePlaceholder(m, now1, text1, typing1);
    FailureKeepsPlaceholders(s1, now1);
    var after1 := MarkStatus(s1, now1, Failed);
    var s2 := after1 + [UserMessage(now2, text2)] + [Placeholder(typing2)];
    StartAddsOnePlaceholder(after1, now2, text2, typing2);
    FailureKeepsPlaceholders(s2, now2);
  }
}
