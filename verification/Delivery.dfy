/** Two confirmed ends and a network that drops, duplicates, reorders and forges: exactly-once
    authentic delivery over every interleaving. */
module Delivery {
  import opened Bytes
  import opened Header
  import opened Primitives
  import opened ReplayWindow
  import opened E2ee
  import opened SecureSession
  import opened SessionRuns

  datatype Message = Message(frame: Frame, plaintext: Bytes)

  /** One direction of a session: what the sender sealed, what the receiver authenticated and
      recorded, and what it handed to its user. */
  datatype Link = Link(
    sender: State,
    receiver: State,
    sealed: seq<Message>,
    recorded: seq<Frame>,
    delivered: seq<Message>)

  datatype Event = AtSender(op: Op) | AtReceiver(op: Op)

  function Advance(p: Primitives, link: Link, event: Event): Link {
    match event
    case AtSender(op) =>
      var (sender, o) := Step(p, link.sender, op);
      link.(sender := sender,
            sealed := if o.Sealed? && op.Seal? then link.sealed + [Message(o.frame, op.plaintext)] else link.sealed)
    case AtReceiver(op) =>
      var (receiver, o) := Step(p, link.receiver, op);
      var admitted := op.Open? && (o.Opened? || o == Failed(PermissionDenied));
      var handed := if op.Open? && o.Opened? then [Message(op.frame, o.plaintext)] else [];
      link.(receiver := receiver,
            recorded := if admitted then link.recorded + [op.frame] else link.recorded,
            delivered := link.delivered + handed)
  }

  function AdvanceAll(p: Primitives, link: Link, events: seq<Event>): Link {
    if events == [] then link
    else Advance(p, AdvanceAll(p, link, events[..|events| - 1]), events[|events| - 1])
  }

  /** Two freshly created ends that agree on everything the handshake establishes. */
  ghost predicate Paired(sender: Binding, receiver: Binding) {
    && receiver.localRole == sender.localRole.Opposite()
    && receiver.sessionId == sender.sessionId
    && receiver.permissions == sender.permissions
    && receiver.permissionsDigest == sender.permissionsDigest
    && receiver.keys == sender.keys
  }

  function NewLink(sender: Binding, receiver: Binding): Link {
    Link(Initial(sender), Initial(receiver), [], [], [])
  }

  // ----- what the cipher sees

  function Nonce(b: Binding, h: MessageHeader): Bytes
    requires h.sequence <= MAX_SECURE_SEQUENCE
  {
    BuildNonce(b.keys.NoncePrefix(b.Outgoing()), h.channel, h.sequence).value
  }

  function Aad(b: Binding, h: MessageHeader): Bytes {
    BuildAad(h, b.permissionsDigest, b.Outgoing())
  }

  function Plaintext(p: Primitives, b: Binding, frame: Frame): Option<Bytes>
    requires frame.header.sequence <= MAX_SECURE_SEQUENCE
  {
    OpenFrame(p, b.keys.TrafficKey(b.Outgoing()), b.keys.NoncePrefix(b.Outgoing()),
              b.permissionsDigest, b.Outgoing(), frame)
  }

  /** The cipher's promise, for one frame: if these bytes open under this nonce and associated data,
      the sender sealed exactly them under exactly those. */
  ghost predicate NotForged(p: Primitives, link: Link, frame: Frame) {
    frame.header.sequence <= MAX_SECURE_SEQUENCE && Plaintext(p, link.sender.binding, frame).Some? ==>
      exists m :: m in link.sealed
        && m.frame.header.sequence <= MAX_SECURE_SEQUENCE
        && Nonce(link.sender.binding, m.frame.header) == Nonce(link.sender.binding, frame.header)
        && Aad(link.sender.binding, m.frame.header) == Aad(link.sender.binding, frame.header)
        && m.frame.ciphertext == frame.ciphertext
  }

  ghost predicate Unforged(p: Primitives, link: Link, events: seq<Event>) {
    forall i :: 0 <= i < |events| && events[i].AtReceiver? && events[i].op.Open? ==>
      NotForged(p, AdvanceAll(p, link, events[..i]), events[i].op.frame)
  }

  // ----- the invariant

  /** A message as `seal` makes it. */
  ghost predicate WellSealed(p: Primitives, b: Binding, m: Message) {
    var h := m.frame.header;
    && h.ValidKindChannel()
    && Allowed(b.permissions, h.kind)
    && h.sessionId == b.sessionId
    && h.sequence <= MAX_SECURE_SEQUENCE
    && h.payloadLen == |m.frame.ciphertext|
    && Plaintext(p, b, m.frame) == Some(m.plaintext)
  }

  ghost function NumbersOn(frames: seq<Frame>, channel: ChannelId): set<int> {
    set f | f in frames && f.header.channel == channel :: f.header.sequence as int
  }

  function Frames(messages: seq<Message>): (r: seq<Frame>)
    ensures |r| == |messages|
    ensures forall i :: 0 <= i < |r| ==> r[i] == messages[i].frame
  {
    seq(|messages|, i requires 0 <= i < |messages| => messages[i].frame)
  }

  ghost predicate DistinctFrames(frames: seq<Frame>) {
    forall i, j :: 0 <= i < j < |frames| ==>
      frames[i].header.channel != frames[j].header.channel || frames[i].header.sequence != frames[j].header.sequence
  }

  ghost predicate WindowsMatch(windows: Windows, frames: seq<Frame>) {
    forall c: ChannelId :: Refines(windows[c.Code()], NumbersOn(frames, c))
  }

  ghost predicate Inv(p: Primitives, link: Link) {
    && Paired(link.sender.binding, link.receiver.binding)
    && (forall m :: m in link.sealed ==> WellSealed(p, link.sender.binding, m))
    && (forall m :: m in link.delivered ==> m in link.sealed && m.frame in link.recorded)
    && WindowsMatch(link.receiver.windows, link.recorded)
    && DistinctFrames(link.recorded)
    && DistinctFrames(Frames(link.delivered))
  }

  lemma InitialInv(p: Primitives, sender: Binding, receiver: Binding)
    requires Paired(sender, receiver)
    ensures Inv(p, NewLink(sender, receiver))
  {
    forall c: ChannelId ensures NumbersOn([], c) == {} {}
  }

  lemma SealWellSealed(p: Primitives, s: State, op: Op)
    requires OpenInvertsSeal(p) && op.Seal? && Step(p, s, op).1.Sealed?
    ensures WellSealed(p, s.binding, Message(Step(p, s, op).1.frame, op.plaintext))
  {
    var b := s.binding;
    var frame := Step(p, s, op).1.frame;
    var key, nonce, aad := b.keys.TrafficKey(b.Outgoing()), Nonce(b, frame.header), Aad(b, frame.header);
    assert frame.ciphertext == p.aeadSeal(key, nonce, aad, op.plaintext);
  }

  /** `open` either records an authenticated, acceptable frame or leaves the session as it was. */
  lemma OpenEffect(p: Primitives, s: State, frame: Frame, b: Binding)
    requires Paired(b, s.binding)
    ensures var (t, o) := OpenStep(p, s, frame);
            var h := frame.header;
            if o.Opened? || o == Failed(PermissionDenied) then
              && GuardCheck(s.windows, h.channel, h.sequence).Ok?
              && Plaintext(p, b, frame).Some?
              && t == s.(windows := GuardRecord(s.windows, h.channel, h.sequence))
              && (o.Opened? ==> o.plaintext == Plaintext(p, b, frame).value)
            else t == s
  {
    assert s.binding.Incoming() == b.Outgoing();
  }

  lemma OtherStepsKeepWindows(p: Primitives, s: State, op: Op)
    requires !op.Open?
    ensures Step(p, s, op).0.windows == s.windows
  {
  }

  lemma NumbersOnAppend(frames: seq<Frame>, f: Frame, c: ChannelId)
    ensures NumbersOn(frames + [f], c)
         == NumbersOn(frames, c) + if f.header.channel == c then {f.header.sequence as int} else {}
  {
    assert forall g :: g in frames + [f] <==> g in frames || g == f;
  }

  lemma RecordKeepsMatch(windows: Windows, frames: seq<Frame>, f: Frame)
    requires WindowsMatch(windows, frames) && DistinctFrames(frames)
    requires GuardCheck(windows, f.header.channel, f.header.sequence).Ok?
    ensures WindowsMatch(GuardRecord(windows, f.header.channel, f.header.sequence), frames + [f])
    ensures DistinctFrames(frames + [f])
  {
    var w := windows[f.header.channel.Code()];
    var numbers := NumbersOn(frames, f.header.channel);
    CheckDecidesAcceptable(w, numbers, f.header.sequence);
    RecordRefines(w, numbers, f.header.sequence);
    forall c: ChannelId
      ensures Refines(GuardRecord(windows, f.header.channel, f.header.sequence)[c.Code()], NumbersOn(frames + [f], c))
    {
      NumbersOnAppend(frames, f, c);
      ChannelCodes(c);
      ChannelCodes(f.header.channel);
    }
    forall i | 0 <= i < |frames|
      ensures frames[i].header.channel != f.header.channel || frames[i].header.sequence != f.header.sequence
    {
      if frames[i].header.channel == f.header.channel {
        assert frames[i].header.sequence in numbers;
      }
    }
  }

  /** An authenticated frame is one the sender sealed: header, bytes and plaintext. */
  lemma AuthenticIsSealed(p: Primitives, link: Link, frame: Frame)
    requires Inv(p, link) && NotForged(p, link, frame)
    requires frame.header.sequence <= MAX_SECURE_SEQUENCE
    requires Plaintext(p, link.sender.binding, frame).Some?
    ensures Message(frame, Plaintext(p, link.sender.binding, frame).value) in link.sealed
  {
    var b := link.sender.binding;
    var m :| m in link.sealed
      && m.frame.header.sequence <= MAX_SECURE_SEQUENCE
      && Nonce(b, m.frame.header) == Nonce(b, frame.header)
      && Aad(b, m.frame.header) == Aad(b, frame.header)
      && m.frame.ciphertext == frame.ciphertext;
    AadInjective(m.frame.header, b.permissionsDigest, b.Outgoing(), frame.header, b.permissionsDigest, b.Outgoing());
    assert m.frame == frame && WellSealed(p, b, m);
  }

  lemma DeliveredStaysDistinct(link: Link, f: Frame)
    requires DistinctFrames(Frames(link.delivered)) && DistinctFrames(link.recorded + [f])
    requires forall m :: m in link.delivered ==> m.frame in link.recorded
    ensures forall x :: DistinctFrames(Frames(link.delivered + [Message(f, x)]))
  {
    forall i | 0 <= i < |link.delivered|
      ensures var g := link.delivered[i].frame;
              g.header.channel != f.header.channel || g.header.sequence != f.header.sequence
    {
      assert link.delivered[i] in link.delivered;
      var j :| 0 <= j < |link.recorded| && link.recorded[j] == link.delivered[i].frame;
      assert (link.recorded + [f])[j] == link.recorded[j] && (link.recorded + [f])[|link.recorded|] == f;
    }
  }

  lemma ReceiverOpenInv(p: Primitives, link: Link, frame: Frame)
    requires Inv(p, link) && NotForged(p, link, frame)
    ensures Inv(p, Advance(p, link, AtReceiver(Open(frame))))
  {
    OpenEffect(p, link.receiver, frame, link.sender.binding);
    var o := OpenStep(p, link.receiver, frame).1;
    if o.Opened? || o == Failed(PermissionDenied) {
      RecordKeepsMatch(link.receiver.windows, link.recorded, frame);
      AuthenticIsSealed(p, link, frame);
      DeliveredStaysDistinct(link, frame);
    }
  }

  lemma ReceiverStepInv(p: Primitives, link: Link, op: Op)
    requires Inv(p, link) && (op.Open? ==> NotForged(p, link, op.frame))
    ensures Inv(p, Advance(p, link, AtReceiver(op)))
  {
    if op.Open? {
      ReceiverOpenInv(p, link, op.frame);
    } else {
      StepFlags(p, link.receiver, op);
      OtherStepsKeepWindows(p, link.receiver, op);
    }
  }

  lemma SenderStepInv(p: Primitives, link: Link, op: Op)
    requires OpenInvertsSeal(p) && Inv(p, link)
    ensures Inv(p, Advance(p, link, AtSender(op)))
  {
    StepFlags(p, link.sender, op);
    if op.Seal? && Step(p, link.sender, op).1.Sealed? {
      SealWellSealed(p, link.sender, op);
    }
  }

  lemma {:induction false} RunInv(p: Primitives, sender: Binding, receiver: Binding, events: seq<Event>)
    requires OpenInvertsSeal(p) && Paired(sender, receiver)
    requires Unforged(p, NewLink(sender, receiver), events)
    ensures Inv(p, AdvanceAll(p, NewLink(sender, receiver), events))
    ensures AdvanceAll(p, NewLink(sender, receiver), events).sender.binding == sender
  {
    var start := NewLink(sender, receiver);
    if events == [] {
      InitialInv(p, sender, receiver);
    } else {
      var front, event := events[..|events| - 1], events[|events| - 1];
      assert forall i :: 0 <= i < |front| ==> front[..i] == events[..i];
      RunInv(p, sender, receiver, front);
      var link := AdvanceAll(p, start, front);
      match event {
        case AtSender(op) => SenderStepInv(p, link, op); StepFlags(p, link.sender, op);
        case AtReceiver(op) => ReceiverStepInv(p, link, op);
      }
    }
  }

  // ----- the theorem

  /** Over every interleaving of the two ends, with any frames presented in any order any number of
      times: whatever was delivered was sealed by the peer with that header and plaintext, nothing
      was delivered twice, and a sealed frame that arrives now is delivered exactly when its number
      is new and not below the window. */
  lemma ExactlyOnceDelivery(p: Primitives, sender: Binding, receiver: Binding, events: seq<Event>, m: Message)
    requires OpenInvertsSeal(p) && Paired(sender, receiver)
    requires Unforged(p, NewLink(sender, receiver), events)
    ensures var link := AdvanceAll(p, NewLink(sender, receiver), events);
            && (forall d :: d in link.delivered ==> d in link.sealed)
            && DistinctFrames(Frames(link.delivered))
            && (m in link.sealed && link.receiver.Phase() == Ready ==>
                  (Step(p, link.receiver, Open(m.frame)).1 == Opened(m.plaintext) <==>
                   Acceptable(NumbersOn(link.recorded, m.frame.header.channel), m.frame.header.sequence)))
  {
    var link := AdvanceAll(p, NewLink(sender, receiver), events);
    RunInv(p, sender, receiver, events);
    if m in link.sealed && link.receiver.Phase() == Ready {
      SealedFrameOpens(p, link, m);
    }
  }

  /** A sealed frame opens to its plaintext exactly when its number is acceptable. */
  lemma SealedFrameOpens(p: Primitives, link: Link, m: Message)
    requires Inv(p, link) && m in link.sealed && link.receiver.Phase() == Ready
    ensures Step(p, link.receiver, Open(m.frame)).1 == Opened(m.plaintext) <==>
      Acceptable(NumbersOn(link.recorded, m.frame.header.channel), m.frame.header.sequence)
  {
    var h := m.frame.header;
    assert WellSealed(p, link.sender.binding, m);
    assert link.receiver.binding.Incoming() == link.sender.binding.Outgoing();
    CheckDecidesAcceptable(link.receiver.windows[h.channel.Code()], NumbersOn(link.recorded, h.channel), h.sequence);
  }

  /** Bytes that do not authenticate change nothing, whatever header they carry. */
  lemma ForgeryLeavesNoTrace(p: Primitives, link: Link, frame: Frame)
    requires Paired(link.sender.binding, link.receiver.binding)
    requires frame.header.sequence <= MAX_SECURE_SEQUENCE ==> Plaintext(p, link.sender.binding, frame).None?
    ensures Advance(p, link, AtReceiver(Open(frame))) == link
    ensures Step(p, link.receiver, Open(frame)).1.Failed?
  {
    OpenEffect(p, link.receiver, frame, link.sender.binding);
  }

  /** Every frame presented to the receiver is one the sender sealed before. */
  ghost predicate OnlySealedFrames(p: Primitives, link: Link, events: seq<Event>) {
    forall i :: 0 <= i < |events| && events[i].AtReceiver? && events[i].op.Open? ==>
      exists m :: m in AdvanceAll(p, link, events[..i]).sealed && m.frame == events[i].op.frame
  }

  /** A network that only drops, duplicates and reorders never forges, whatever the cipher. */
  lemma ReorderingIsUnforged(p: Primitives, sender: Binding, receiver: Binding, events: seq<Event>)
    requires OnlySealedFrames(p, NewLink(sender, receiver), events)
    ensures Unforged(p, NewLink(sender, receiver), events)
  {
    forall i | 0 <= i < |events| && events[i].AtReceiver? && events[i].op.Open?
      ensures NotForged(p, AdvanceAll(p, NewLink(sender, receiver), events[..i]), events[i].op.frame)
    {
      var link := AdvanceAll(p, NewLink(sender, receiver), events[..i]);
      assert exists m :: m in link.sealed && m.frame == events[i].op.frame;
    }
  }
}
