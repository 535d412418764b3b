/** What the parts of the whole do to one another: acceptances become acks, acks settle
    rows, and frames go where they are sent. */
module SystemEffects {
  import opened Prelude
  import opened Envelopes
  import ME = MailboxEffects
  import H = HubModel
  import HL = HubLaws
  import HE = HubEffects
  import F = FerryModel
  import FE = FerryEffects
  import O = OutboxModel
  import opened SystemModel

  /** An ack frame the hub reads settles its id for the host of the connection: no query of
      that host returns it any more, and nothing else is owed differently. */
  lemma AckFrameSettles(s: Sys, a: Action)
    requires HL.HubInv(s.hub) && a.HubReceive? && Enabled(s, a)
    requires Frames(s.up, a.conn)[0].AckMsg? && Frames(s.up, a.conn)[0].id != ""
    ensures var s', h, id := Step(s, a), s.hub.owners[a.conn], Frames(s.up, a.conn)[0].id;
            && s'.up == s.up[a.conn := Frames(s.up, a.conn)[1..]]
            && (forall projects, now, e: Envelope :: ME.Owed(s'.hub.store, h, projects, now, e) ==> e.msgId != id)
            && (forall g, projects, now, e: Envelope :: g != h || e.msgId != id
                  ==> (ME.Owed(s'.hub.store, g, projects, now, e) <==> ME.Owed(s.hub.store, g, projects, now, e)))
  {
    hide ME.Owed;
    hide HL.NoMissedWakeup;
    HE.AckEffect(s.hub, H.AckMsg(a.conn, Frames(s.up, a.conn)[0].id));
  }

  /** An accepted inject puts the ack last in the host's outbox and its envelope on record. */
  lemma AcceptanceIsAcked(s: Sys, a: Action)
    requires a.FerryStep? && Enabled(s, a) && a.fa.Injected? && a.fa.outcome.Accepted?
    ensures var s', e := Step(s, a), s.nodes[a.host].ferry.f.inflight.value.env;
            && a.host in s'.nodes && s'.nodes[a.host].box.log == s.nodes[a.host].box.log + [F.AckMsg(e.msgId)]
            && (a.host, e) in s'.accepted
  {
    var n, s' := s.nodes[a.host], Step(s, a);
    FE.AcceptanceSettles(n.cfg, n.ferry, a.fa);
    O.EnqueueAllLog(n.box, [F.AckMsg(n.ferry.f.inflight.value.env.msgId)]);
    var w := F.Step(n.cfg, n.ferry, a.fa).0;
    assert w.h.acceptances[|n.ferry.h.acceptances|].env == n.ferry.f.inflight.value.env;
    assert (a.host, n.ferry.f.inflight.value.env) in AcceptedBy(a.host, w);
  }

  /** A send on a connection puts the head of the outbox last in transit there. */
  lemma HeadGoesOut(s: Sys, a: Action)
    requires a.BeginSend? && a.on.On? && Enabled(s, a)
    ensures var s', box := Step(s, a), s.nodes[a.host].box;
            && Frames(s'.up, a.on.conn) == Frames(s.up, a.on.conn) + [box.log[box.queue[0]]]
            && s'.hub == s.hub && s'.down == s.down
  {
  }

  /** A deliver the hub writes is last in transit to the connection it is aimed at, and the
      client listening there takes the first. */
  lemma DeliverTravels(s: Sys, a: Action)
    requires Enabled(s, a)
    ensures a.HubSend? && a.written ==>
              var x := s.hub.handlers[a.conn].todo[0];
              Frames(Step(s, a).down, x.conn) == Frames(s.down, x.conn) + [x.env]
    ensures a.FerryStep? && a.fa.Delivery? ==>
              var c := s.nodes[a.host].link.value;
              Frames(s.down, c) == [a.fa.env] + Frames(Step(s, a).down, c)
  {
    hide F.Step;
    hide H.Step;
  }
}
