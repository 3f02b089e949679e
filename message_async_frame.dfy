/**
 * MessageAsyncFrame: the task pair whose queues carry chat messages.  The
 * child half prepares messages; the parent half, on every tick, polls a
 * bounded batch and hands each message to its addressee when that player is
 * online, dropping it otherwise.
 */
module MessageAsyncFrame {
  import opened JavaLong
  import opened Batching
  import opened PayloadFrame
  import opened AsyncProcessFrame

  type Uuid = int

  /** MessagePayload: the producer metadata, the addressee, the extra
      addressees and the text. */
  datatype Message = Message(origin: Payload, uuid: Uuid, uuids: seq<Uuid>, msg: string)

  /** One chat line handed to an online player. */
  datatype Delivery = Delivery(to: Uuid, text: string)

  const CountKey := "framework-message-sending-max"
  const SleepKey := "framework-message-receive-interval"

  /** The constructor: the pair with the message-specific settings. */
  method NewMessageFrame(cfg: Config) returns (f: ProcessFrame<Message>)
    ensures fresh(f) && f.PairValid()
    ensures f.queue == [] && f.childSide.queue == []
    ensures f.count == ConfigLong(cfg, CountKey, DefaultCount)
    ensures f.sleep == ConfigLong(cfg, SleepKey, DefaultSleep)
  {
    f := new ProcessFrame.Parent(cfg, CountKey, SleepKey);
  }

  /** What the parent hands out for a batch of polled messages, in order:
      each message whose addressee is online. */
  function Deliveries(polled: seq<Message>, online: set<Uuid>): (r: seq<Delivery>)
    ensures |r| <= |polled|
    ensures forall i :: 0 <= i < |r| ==> r[i].to in online
    decreases |polled|
  {
    if polled == [] then []
    else
      var rest := Deliveries(polled[1..], online);
      if polled[0].uuid in online then [Delivery(polled[0].uuid, polled[0].msg)] + rest else rest
  }

  /** Handing out two batches one after the other is handing out their
      concatenation: splitting the queue into ticks loses and reorders
      nothing. */
  lemma {:induction false} DeliveriesAppend(a: seq<Message>, b: seq<Message>, online: set<Uuid>)
    ensures Deliveries(a + b, online) == Deliveries(a, online) + Deliveries(b, online)
    decreases |a|
  {
    if a != [] {
      assert (a + b)[1..] == a[1..] + b;
      DeliveriesAppend(a[1..], b, online);
    } else {
      assert a + b == b;
    }
  }

  /** A message reaches its addressee exactly when it is polled while the
      addressee is online. */
  lemma {:induction false} DeliveredIffOnline(polled: seq<Message>, online: set<Uuid>, m: Message)
    ensures Delivery(m.uuid, m.msg) in Deliveries(polled, online) <==>
            m.uuid in online && exists j :: 0 <= j < |polled| && polled[j].uuid == m.uuid && polled[j].msg == m.msg
    decreases |polled|
  {
    if polled != [] {
      DeliveredIffOnline(polled[1..], online, m);
      var d := Delivery(m.uuid, m.msg);
      if d in Deliveries(polled, online) && d !in Deliveries(polled[1..], online) {
        assert polled[0].uuid == m.uuid && polled[0].msg == m.msg;
      }
      if m.uuid in online {
        forall j | 1 <= j < |polled| && polled[j].uuid == m.uuid && polled[j].msg == m.msg
          ensures d in Deliveries(polled[1..], online)
        {
          assert polled[1..][j - 1] == polled[j];
        }
      }
      forall j | 0 <= j < |polled| - 1 && polled[1..][j].uuid == m.uuid && polled[1..][j].msg == m.msg
        ensures exists i :: 0 <= i < |polled| && polled[i].uuid == m.uuid && polled[i].msg == m.msg
      {
        assert polled[j + 1] == polled[1..][j];
      }
    }
  }

  /** parentRun(): one bounded batch in FIFO order, each message handed to
      its addressee when online (a dropped message still uses up the
      batch). */
  method ParentRun(f: ProcessFrame<Message>, online: set<Uuid>) returns (delivered: seq<Delivery>)
    modifies f`queue
    ensures var n := Min(|old(f.queue)|, DrainCap(f.count));
            delivered == Deliveries(old(f.queue)[..n], online) && f.queue == old(f.queue)[n..]
  {
    var polled := f.ParentRun();
    delivered := Deliveries(polled, online);
  }

  /** childRun(): like the generic child loop, but with no finalize hook;
      a negative sleep interval aborts it after its first pass. */
  method ChildRun(f: ProcessFrame<Message>, rounds: nat) returns (processed: seq<Message>, left: bool, aborted: bool)
    requires f.ChildValid()
    modifies f`queue, f`finalized, f.parentSide.frame`persist
    ensures f.ChildValid() && f.parentSide.frame.persist
    ensures left == (f.frame.childend && rounds > 0)
    ensures aborted == (!f.frame.childend && rounds > 0 && f.sleep < 0)
    ensures var passes := if f.sleep < 0 then Min(rounds, 1) else rounds;
            var k := if f.frame.childend then 0 else Min(passes, |old(f.queue)|);
            processed == old(f.queue)[..k] && f.queue == old(f.queue)[k..]
    ensures f.finalized == old(f.finalized)
  {
    processed, left, aborted := f.ChildRun(rounds, false);
  }

  /** receiveMessage(): appends to the parent half's queue; on a parent half
      the link is null and the call fails (false). */
  method ReceiveMessage(f: ProcessFrame<Message>, m: Message) returns (ok: bool)
    requires !f.frame.isParent ==> f.ChildValid()
    modifies (if f.frame.isParent then {} else {f.parentSide})`queue
    ensures ok == !f.frame.isParent
    ensures ok ==> f.parentSide.queue == old(f.parentSide.queue) + [m] && f.ChildValid()
  {
    ok := f.ReceiveData(m);
  }

  /** sendMessage(): appends to the child half's queue; on a child half the
      link is null and the call fails (false). */
  method SendMessage(f: ProcessFrame<Message>, m: Message) returns (ok: bool)
    requires f.frame.isParent ==> f.PairValid()
    modifies (if f.frame.isParent then {f.childSide} else {})`queue
    ensures ok == f.frame.isParent
    ensures ok ==> f.childSide.queue == old(f.childSide.queue) + [m] && f.queue == old(f.queue) && f.PairValid()
  {
    ok := f.SendData(m);
  }
}
