/** Posting to the Discord webhook: `send_to_discord` (open-heavens/main.py
    and open-heavens/text-scrapper.py) and the audio upload of main.py. */
module Delivery {
  import opened Outcomes
  import opened PyStr
  import opened Chunker

  /** What one POST carries: `json={"content": ...}` or `files={"file": ...}`. */
  datatype Payload = Text(content: string) | Audio(fileName: string)

  /** The Discord webhook behind `webhook_url`. Whether the server accepts a
      POST (so that `raise_for_status()` passes) and the text of the
      exception raised when it does not are decided outside the scripts, so
      they are given here as functions of the payload. */
  datatype Webhook = Webhook(accepts: Payload -> bool, rejection: Payload -> string)
  {
    /** `requests.post(webhook_url, ...)` then `response.raise_for_status()`. */
    function Post(p: Payload): (r: Outcome)
      ensures r.Pass? <==> accepts(p)
      ensures r.Fail? ==> r.error == rejection(p)
    {
      if accepts(p) then Pass else Fail(rejection(p))
    }
  }

  /** The text payloads for a sequence of messages. */
  function Texts(ms: seq<string>): seq<Payload>
  {
    if ms == [] then [] else [Text(ms[0])] + Texts(ms[1..])
  }

  /** One text payload per message, in order. */
  lemma {:induction false} TextsIndex(ms: seq<string>)
    ensures |Texts(ms)| == |ms|
    ensures forall i :: 0 <= i < |ms| ==> Texts(ms)[i] == Text(ms[i])
    decreases |ms|
  {
    if ms != [] {
      TextsIndex(ms[1..]);
    }
  }

  lemma {:induction false} TextsAppend(ms: seq<string>, m: string)
    ensures Texts(ms + [m]) == Texts(ms) + [Text(m)]
    decreases |ms|
  {
    if ms != [] {
      assert (ms + [m])[1..] == ms[1..] + [m];
      TextsAppend(ms[1..], m);
    } else {
      assert ms + [m] == [m];
    }
  }

  /** The webhook accepted every one of `ms`. */
  predicate AcceptedAll(ms: seq<string>, accepts: Payload -> bool)
  {
    forall i :: 0 <= i < |ms| ==> accepts(Text(ms[i]))
  }

  lemma AcceptedAppend(ms: seq<string>, m: string, accepts: Payload -> bool)
    requires AcceptedAll(ms, accepts) && accepts(Text(m))
    ensures AcceptedAll(ms + [m], accepts)
  {
  }

  /** How many of `ms` the webhook takes before it first rejects one. */
  function Delivered(ms: seq<string>, accepts: Payload -> bool): (k: nat)
    ensures k <= |ms|
    ensures forall i :: 0 <= i < k ==> accepts(Text(ms[i]))
    ensures k < |ms| ==> !accepts(Text(ms[k]))
    decreases |ms|
  {
    if ms == [] || !accepts(Text(ms[0])) then 0 else 1 + Delivered(ms[1..], accepts)
  }

  /** The messages the loop posts: those the webhook accepts, up to and
      including the first one it rejects. Every one but the last was
      accepted, and only a rejection stops the posting early. */
  function Attempted(ms: seq<string>, accepts: Payload -> bool): (a: seq<string>)
    ensures a <= ms
    ensures forall i :: 0 <= i < |a| - 1 ==> accepts(Text(a[i]))
    ensures a != ms ==> a != [] && !accepts(Text(a[|a| - 1]))
  {
    var k := Delivered(ms, accepts);
    if k == |ms| then ms else ms[..k + 1]
  }

  /** Messages already accepted count towards what is delivered. */
  lemma {:induction false} DeliveredAfter(done: seq<string>, ms: seq<string>, accepts: Payload -> bool)
    requires AcceptedAll(done, accepts)
    ensures Delivered(done + ms, accepts) == |done| + Delivered(ms, accepts)
    decreases |done|
  {
    if done != [] {
      assert (done + ms)[1..] == done[1..] + ms;
      DeliveredAfter(done[1..], ms, accepts);
    } else {
      assert done + ms == ms;
    }
  }

  /** When `message` is the first rejected one, exactly `done` is delivered. */
  lemma FirstRejected(done: seq<string>, message: string, later: seq<string>, accepts: Payload -> bool)
    requires AcceptedAll(done, accepts)
    requires !accepts(Text(message))
    ensures var ms := done + ([message] + later);
      && Delivered(ms, accepts) == |done| < |ms|
      && Attempted(ms, accepts) == done + [message]
      && ms[|done|] == message
  {
    DeliveredAfter(done, [message] + later, accepts);
    assert (done + ([message] + later))[..|done| + 1] == done + [message];
  }

  lemma MessagesUnroll(content: string, hardCut: nat)
    requires content != []
    ensures Messages(content, hardCut)
      == [Message(content, hardCut)] + Messages(Remainder(content, hardCut), hardCut)
  {
  }

  /** When the webhook accepted every message, all of them are delivered. */
  lemma AllAccepted(done: seq<string>, accepts: Payload -> bool)
    requires AcceptedAll(done, accepts)
    ensures Delivered(done, accepts) == |done| && Attempted(done, accepts) == done
  {
    assert done + [] == done;
    DeliveredAfter(done, [], accepts);
  }

  /** A round whose message the webhook takes: it joins `done`. */
  lemma RoundAccepted(done: seq<string>, message: string, later: seq<string>, all: seq<string>, accepts: Payload -> bool)
    requires done + ([message] + later) == all
    requires AcceptedAll(done, accepts) && accepts(Text(message))
    ensures AcceptedAll(done + [message], accepts) && (done + [message]) + later == all
  {
    AcceptedAppend(done, message, accepts);
    AppendAssociates(done, message, later);
  }

  /** A round whose message the webhook refuses: it is the first rejected
      message of all of them. */
  lemma RoundRejected(done: seq<string>, message: string, later: seq<string>, all: seq<string>, accepts: Payload -> bool)
    requires done + ([message] + later) == all
    requires AcceptedAll(done, accepts) && !accepts(Text(message))
    ensures Delivered(all, accepts) == |done| < |all|
    ensures Attempted(all, accepts) == done + [message]
    ensures all[|done|] == message
  {
    FirstRejected(done, message, later, accepts);
  }

  /** When no content is left, every message was accepted and posted. */
  lemma Finished(done: seq<string>, all: seq<string>, hardCut: nat, accepts: Payload -> bool)
    requires done + Messages([], hardCut) == all
    requires AcceptedAll(done, accepts)
    ensures Delivered(all, accepts) == |all| && Attempted(all, accepts) == all && done == all
  {
    assert done + [] == done;
    AllAccepted(done, accepts);
  }

  lemma AppendAssociates(done: seq<string>, m: string, later: seq<string>)
    ensures (done + [m]) + later == done + ([m] + later)
  {
  }

  /** One round of the loop: `message` and `rest` are cut from `content`,
      with `done` posted before. Whatever the webhook answers, the trace
      grows by the message; if it takes the message, the message joins
      `done`; if not, it is the first rejected message of all of them. */
  lemma Advance(done: seq<string>, content: string, hardCut: nat, message: string, rest: string, all: seq<string>,
                  accepts: Payload -> bool)
    requires content != []
    requires message == Message(content, hardCut) && rest == Remainder(content, hardCut)
    requires done + Messages(content, hardCut) == all
    requires AcceptedAll(done, accepts)
    ensures Texts(done + [message]) == Texts(done) + [Text(message)]
    ensures accepts(Text(message)) ==>
      AcceptedAll(done + [message], accepts) && (done + [message]) + Messages(rest, hardCut) == all
    ensures !accepts(Text(message)) ==>
      && Delivered(all, accepts) == |done| < |all|
      && Attempted(all, accepts) == done + [message]
      && all[|done|] == message
  {
    MessagesUnroll(content, hardCut);
    TextsAppend(done, message);
    if accepts(Text(message)) {
      RoundAccepted(done, message, Messages(rest, hardCut), all, accepts);
    } else {
      RoundRejected(done, message, Messages(rest, hardCut), all, accepts);
    }
  }

  /** Every text the loop posts is within the bound of the hard cut: at
      most `MaxLength` characters with `IntendedHardCut`, one more with
      `HardCut` (see `Chunker.MessagesBounded`). */
  lemma PostsWithinBound(content: string, hardCut: nat, accepts: Payload -> bool)
    ensures forall i :: 0 <= i < |Texts(Attempted(Messages(content, hardCut), accepts))| ==>
      && Texts(Attempted(Messages(content, hardCut), accepts))[i].Text?
      && |Texts(Attempted(Messages(content, hardCut), accepts))[i].content| <= Bound(hardCut)
  {
    var ms := Messages(content, hardCut);
    var a := Attempted(ms, accepts);
    MessagesBounded(content, hardCut);
    TextsIndex(a);
    forall i | 0 <= i < |a|
      ensures |a[i]| <= Bound(hardCut)
    {
      assert a[i] == ms[i];
    }
  }

  /** One round of the loop in `send_to_discord`: pick `split_point`, cut the
      message off and strip both parts. Without a full stop the cut is at
      `hardCut`: `max_length` (`HardCut`) as written, `IntendedHardCut` corrected. */
  method NextMessage(content: string, hardCut: nat) returns (message: string, rest: string)
    requires content != []
    ensures message == Message(content, hardCut)
    ensures rest == Remainder(content, hardCut)
  {
    var splitPoint: int;
    if |content| > MaxLength {
      splitPoint := RFind(content[..MaxLength], '.');
      if splitPoint == -1 {
        splitPoint := hardCut;
      }
    } else {
      splitPoint := |content|;
    }
    assert splitPoint == SplitPoint(content, hardCut);
    message := Strip(Prefix(content, splitPoint + 1));
    rest := Strip(Suffix(content, splitPoint + 1));
  }

  /** `send_to_discord(webhook_url, content)`: the messages of `content` are
      posted in order, and `posted` lists every POST made. The first rejected
      post raises, so it is the last one made and its error is the outcome;
      otherwise every message is posted and the outcome is a pass. */
  method SendToDiscord(hook: Webhook, content: string, hardCut: nat) returns (r: Outcome, posted: seq<Payload>)
    ensures posted == Texts(Attempted(Messages(content, hardCut), hook.accepts))
    ensures var ms := Messages(content, hardCut);
      var k := Delivered(ms, hook.accepts);
      r == if k == |ms| then Pass else Fail(hook.rejection(Text(ms[k])))
  {
    var rest := content;
    posted := [];
    ghost var done: seq<string> := [];
    ghost var all := Messages(content, hardCut);
    while rest != []
      invariant done + Messages(rest, hardCut) == all
      invariant AcceptedAll(done, hook.accepts)
      invariant posted == Texts(done)
      decreases |rest|
    {
      ghost var previous := rest;
      var message;
      message, rest := NextMessage(rest, hardCut);
      Advance(done, previous, hardCut, message, rest, all, hook.accepts);
      r := hook.Post(Text(message));
      posted := posted + [Text(message)];
      if r.Fail? {
        assert posted == Texts(Attempted(all, hook.accepts));
        assert r == Fail(hook.rejection(Text(all[Delivered(all, hook.accepts)])));
        return;
      }
      done := done + [message];
    }
    Finished(done, all, hardCut, hook.accepts);
    r := Pass;
  }
}
