/** The message router: one task owns the table of actors and the table of channels and
    works off commands one after the other. Which mailboxes still have a receiver, and what
    an actor answers to a channel open, are facts of the environment that come with each
    command. */
module Router {
  import opened Prelude

  type ActorId = nat
  type MailboxId = nat
  type ChannelId = string

  datatype Participant = Actor(id: ActorId) | External

  datatype Message =
    | Plain(body: Bytes)
    | ChannelOpen(channel: ChannelId, initiator: Participant, body: Bytes)
    | ChannelMessage(channel: ChannelId, body: Bytes)
    | ChannelClose(channel: ChannelId)

  datatype OpenAnswer = Accepted | Refused | Error | NoAnswer

  datatype Command =
    | Register(actor: ActorId, mailbox: MailboxId)
    | Unregister(actor: ActorId)
    | SendTo(target: ActorId, message: Message)
    | OpenChannel(to: Participant, channel: ChannelId, initiator: Participant, body: Bytes, answer: OpenAnswer)
    | SendOn(channel: ChannelId, sender: Participant, body: Bytes)
    | CloseChannel(channel: ChannelId, sender: Participant)

  /** A command, with the mailboxes whose receiver is alive when it is processed. */
  datatype Event = Event(cmd: Command, alive: set<MailboxId>)

  /** `Dropped`: the response channel goes away unanswered; `Silent`: the command has none. */
  datatype Reply = Ok | Answer(accepted: bool) | Err | Dropped | Silent

  datatype ChannelState = ChannelState(initiator: Participant, target: Participant, isOpen: bool)

  datatype Tables = Tables(actors: map<ActorId, MailboxId>, channels: map<ChannelId, ChannelState>,
                           mail: map<MailboxId, seq<Message>>)

  const EMPTY := Tables(map[], map[], map[])

  function MailIn(mail: map<MailboxId, seq<Message>>, m: MailboxId): (result: seq<Message>) {
    if m in mail then mail[m] else []
  }

  function Put(mail: map<MailboxId, seq<Message>>, m: MailboxId, msg: Message): (result: map<MailboxId, seq<Message>>) {
    mail[m := MailIn(mail, m) + [msg]]
  }

  // ----- One command, as a function -----

  /** Put `msg` into the mailbox of `actor`, if it is registered and its mailbox alive. */
  function Deliver(s: Tables, alive: set<MailboxId>, actor: ActorId, msg: Message): (r: (Tables, Reply)) {
    if actor !in s.actors then (s, Err)
    else if s.actors[actor] !in alive then (s, Dropped)
    else (s.(mail := Put(s.mail, s.actors[actor], msg)), Ok)
  }

  function Process(s: Tables, e: Event): (r: (Tables, Reply)) {
    match e.cmd
    case Register(a, m) => (s.(actors := s.actors[a := m]), Ok)
    case Unregister(a) => (s.(actors := s.actors - {a}), Silent)
    case SendTo(a, msg) => Deliver(s, e.alive, a, msg)
    case OpenChannel(to, ch, initiator, body, answer) =>
      if to.External? then (s, Err)
      else
        var (s', reply) := Deliver(s, e.alive, to.id, Message.ChannelOpen(ch, initiator, body));
        if reply != Ok then (s', reply)
        else
          (match answer
           case Accepted => (s'.(channels := s'.channels[ch := ChannelState(initiator, to, true)]), Answer(true))
           case Refused => (s', Answer(false))
           case _ => (s', Err))
    case SendOn(ch, sender, body) =>
      if ch !in s.channels then (s, Err)
      else
        var state := s.channels[ch];
        if !state.isOpen || (sender != state.initiator && sender != state.target) then (s, Err)
        else
          (match (if sender == state.initiator then state.target else state.initiator)
           case Actor(id) => Deliver(s, e.alive, id, Message.ChannelMessage(ch, body))
           case External => (s, Ok))
    case CloseChannel(ch, sender) =>
      if ch !in s.channels then (s, Err)
      else
        var state, s' := s.channels[ch], s.(channels := s.channels - {ch});
        if sender != state.initiator && sender != state.target then (s', Err)
        else
          (match (if sender == state.initiator then state.target else state.initiator)
           case Actor(id) => (Deliver(s', e.alive, id, Message.ChannelClose(ch)).0, Ok)
           case External => (s', Ok))
  }

  // ----- The router task, updated in place -----

  class MessageRouter {
    var actors: map<ActorId, MailboxId>
    var channels: map<ChannelId, ChannelState>
    var mail: map<MailboxId, seq<Message>>

    ghost function View(): (result: Tables)
      reads this
    {
      Tables(actors, channels, mail)
    }

    constructor ()
      ensures View() == EMPTY
    {
      actors, channels, mail := map[], map[], map[];
    }

    /** `mailbox.send`: fails when the receiver is gone. */
    method SendToMailbox(mailbox: MailboxId, alive: set<MailboxId>, msg: Message) returns (ok: bool)
      modifies this`mail
      ensures ok <==> mailbox in alive
      ensures mail == if ok then Put(old(mail), mailbox, msg) else old(mail)
    {
      ok := mailbox in alive;
      if ok {
        mail := mail[mailbox := MailIn(mail, mailbox) + [msg]];
      }
    }

    method HandleOpen(target: Participant, ch: ChannelId, initiator: Participant, body: Bytes,
                      answer: OpenAnswer, alive: set<MailboxId>) returns (r: Reply)
      modifies this`channels, this`mail
      ensures (View(), r) == Process(old(View()), Event(OpenChannel(target, ch, initiator, body, answer), alive))
    {
      if target.External? {
        return Err;
      }
      if target.id !in actors {
        return Err;
      }
      var sent := SendToMailbox(actors[target.id], alive, Message.ChannelOpen(ch, initiator, body));
      if !sent {
        return Dropped;
      }
      match answer {
        case Accepted =>
          channels := channels[ch := ChannelState(initiator, target, true)];
          return Answer(true);
        case Refused => return Answer(false);
        case Error => return Err;
        case NoAnswer => return Err;
      }
    }

    method HandleSendOn(ch: ChannelId, sender: Participant, body: Bytes, alive: set<MailboxId>) returns (r: Reply)
      modifies this`mail
      ensures (View(), r) == Process(old(View()), Event(SendOn(ch, sender, body), alive))
    {
      if ch !in channels {
        return Err;
      }
      var state := channels[ch];
      if !state.isOpen {
        return Err;
      }
      var recipient;
      if sender == state.initiator {
        recipient := state.target;
      } else if sender == state.target {
        recipient := state.initiator;
      } else {
        return Err;
      }
      match recipient {
        case External => return Ok;
        case Actor(id) =>
          if id !in actors {
            return Err;
          }
          var sent := SendToMailbox(actors[id], alive, Message.ChannelMessage(ch, body));
          return if sent then Ok else Dropped;
      }
    }

    method HandleClose(ch: ChannelId, sender: Participant, alive: set<MailboxId>) returns (r: Reply)
      modifies this`channels, this`mail
      ensures (View(), r) == Process(old(View()), Event(CloseChannel(ch, sender), alive))
    {
      if ch !in channels {
        return Err;
      }
      var state := channels[ch];
      channels := channels - {ch};
      if sender != state.initiator && sender != state.target {
        return Err;
      }
      var other := if sender == state.initiator then state.target else state.initiator;
      if other.Actor? && other.id in actors {
        var _ := SendToMailbox(actors[other.id], alive, Message.ChannelClose(ch));
      }
      return Ok;
    }

    method Handle(e: Event) returns (r: Reply)
      modifies this
      ensures (View(), r) == Process(old(View()), e)
      ensures e.cmd.Register? ==> r == Ok && e.cmd.actor in actors && actors[e.cmd.actor] == e.cmd.mailbox
      ensures e.cmd.Unregister? ==> r == Silent && e.cmd.actor !in actors
    {
      match e.cmd {
        case Register(a, m) =>
          actors := actors[a := m];
          r := Ok;
        case Unregister(a) =>
          actors := actors - {a};
          r := Silent;
        case SendTo(a, msg) =>
          if a in actors {
            var sent := SendToMailbox(actors[a], e.alive, msg);
            r := if sent then Ok else Dropped;
          } else {
            r := Err;
          }
        case OpenChannel(to, ch, initiator, body, answer) =>
          r := HandleOpen(to, ch, initiator, body, answer, e.alive);
        case SendOn(ch, sender, body) =>
          r := HandleSendOn(ch, sender, body, e.alive);
        case CloseChannel(ch, sender) =>
          r := HandleClose(ch, sender, e.alive);
      }
    }

    method RouterTask(events: seq<Event>) returns (replies: seq<Reply>)
      requires View() == EMPTY
      modifies this
      ensures View() == After(events)
      ensures |replies| == |events| && forall k :: 0 <= k < |events| ==> replies[k] == ReplyAt(events, k)
    {
      hide Process;
      replies := [];
      assert events[..0] == [];
      for i := 0 to |events|
        invariant View() == After(events[..i])
        invariant |replies| == i && forall k :: 0 <= k < i ==> replies[k] == ReplyAt(events, k)
      {
        assert events[..i + 1][..i] == events[..i];
        var r := Handle(events[i]);
        replies := replies + [r];
      }
      assert events[..|events|] == events;
    }
  }

  function After(events: seq<Event>): (s: Tables) {
    if events == [] then EMPTY
    else Process(After(events[..|events| - 1]), events[|events| - 1]).0
  }

  function ReplyAt(events: seq<Event>, k: nat): (r: Reply)
    requires k < |events|
  {
    Process(After(events[..k]), events[k]).1
  }

  // ----- What the history says, without any tables -----

  /** The mailbox of an actor: that of its last registration, unless it has left since. */
  function MailboxBy(h: seq<Event>, a: ActorId): (m: Option<MailboxId>) {
    if h == [] then None
    else
      match h[|h| - 1].cmd
      case Register(a', m) => if a == a' then Some(m) else MailboxBy(h[..|h| - 1], a)
      case Unregister(a') => if a == a' then None else MailboxBy(h[..|h| - 1], a)
      case _ => MailboxBy(h[..|h| - 1], a)
  }

  /** The mailbox a message for `a` can be put into. */
  function Reaches(h: seq<Event>, a: ActorId, alive: set<MailboxId>): (m: Option<MailboxId>) {
    var m := MailboxBy(h, a);
    if m.Some? && m.value in alive then m else None
  }

  /** Event `k` opens channel `ch`: the target can be reached and accepts. */
  predicate OpensAt(h: seq<Event>, k: nat, ch: ChannelId) {
    && k < |h| && h[k].cmd.OpenChannel? && h[k].cmd.channel == ch
    && h[k].cmd.to.Actor? && h[k].cmd.answer == Accepted
    && Reaches(h[..k], h[k].cmd.to.id, h[k].alive).Some?
  }

  predicate ClosesAt(h: seq<Event>, k: nat, ch: ChannelId) {
    k < |h| && h[k].cmd.CloseChannel? && h[k].cmd.channel == ch
  }

  /** Event `k` is the last accepted open of `ch`, and no close of `ch` follows, by whomever. */
  predicate LastOpen(h: seq<Event>, k: nat, ch: ChannelId) {
    && OpensAt(h, k, ch)
    && forall j :: k < j < |h| ==> !OpensAt(h, j, ch) && !ClosesAt(h, j, ch)
  }

  /** The other participant of the channel that `open` set up. */
  function Opposite(open: Command, sender: Participant): (p: Option<Participant>)
    requires open.OpenChannel?
  {
    if sender == open.initiator then Some(open.to)
    else if sender == open.to then Some(open.initiator)
    else None
  }

  /** The command that set up the channel `ch` as it stands after `h`, if it is open. */
  ghost function TrackedBy(h: seq<Event>, ch: ChannelId): (open: Option<Command>)
    ensures open.Some? ==> open.value.OpenChannel?
  {
    if exists k: nat :: LastOpen(h, k, ch) then
      var k: nat :| LastOpen(h, k, ch);
      Some(h[k].cmd)
    else None
  }

  ghost function ToParticipant(h: seq<Event>, p: Participant, alive: set<MailboxId>, msg: Message)
    : (d: Option<(MailboxId, Message)>)
  {
    if p.Actor? && Reaches(h, p.id, alive).Some? then Some((Reaches(h, p.id, alive).value, msg)) else None
  }

  /** Who is at the other end of the channel `ch`, if it is open and `sender` at one end of it. */
  ghost function OtherBy(h: seq<Event>, ch: ChannelId, sender: Participant): (p: Option<Participant>) {
    var open := TrackedBy(h, ch);
    if open.Some? then Opposite(open.value, sender) else None
  }

  ghost function ToOpposite(h: seq<Event>, ch: ChannelId, sender: Participant, alive: set<MailboxId>, msg: Message)
    : (d: Option<(MailboxId, Message)>)
  {
    var other := OtherBy(h, ch, sender);
    if other.Some? then ToParticipant(h, other.value, alive, msg) else None
  }

  /** What one more command delivers after the history `h`: at most one message, to one mailbox. */
  ghost function DeliveryBy(h: seq<Event>, e: Event): (d: Option<(MailboxId, Message)>) {
    match e.cmd
    case Register(_, _) => None
    case Unregister(_) => None
    case SendTo(a, msg) => ToParticipant(h, Actor(a), e.alive, msg)
    case OpenChannel(to, ch, initiator, body, _) =>
      ToParticipant(h, to, e.alive, Message.ChannelOpen(ch, initiator, body))
    case SendOn(ch, sender, body) => ToOpposite(h, ch, sender, e.alive, Message.ChannelMessage(ch, body))
    case CloseChannel(ch, sender) => ToOpposite(h, ch, sender, e.alive, Message.ChannelClose(ch))
  }

  ghost function MailBy(h: seq<Event>, m: MailboxId): (mail: seq<Message>) {
    if h == [] then []
    else
      var before := h[..|h| - 1];
      var d := DeliveryBy(before, h[|h| - 1]);
      MailBy(before, m) + (if d.Some? && d.value.0 == m then [d.value.1] else [])
  }

  // ----- The tables are what the history says -----

  ghost predicate ActorsAgree(h: seq<Event>, actors: map<ActorId, MailboxId>) {
    forall a :: MailboxBy(h, a) == if a in actors then Some(actors[a]) else None
  }

  /** Exactly the open channels are tracked, each with the participants of its last accepted
      open, and none is ever marked closed. */
  ghost predicate ChannelsAgree(h: seq<Event>, channels: map<ChannelId, ChannelState>) {
    forall ch :: ChannelAgrees(h, channels, ch)
  }

  ghost predicate ChannelAgrees(h: seq<Event>, channels: map<ChannelId, ChannelState>, ch: ChannelId) {
    var open := TrackedBy(h, ch);
    && (ch in channels <==> open.Some?)
    && (open.Some? ==> channels[ch] == ChannelState(open.value.initiator, open.value.to, true))
  }

  ghost predicate MailAgrees(h: seq<Event>, mail: map<MailboxId, seq<Message>>) {
    forall m :: MailIn(mail, m) == MailBy(h, m)
  }

  lemma LastOpenUnique(h: seq<Event>, j: nat, k: nat, ch: ChannelId)
    requires LastOpen(h, j, ch) && LastOpen(h, k, ch)
    ensures j == k
  {
    assert j < k ==> !OpensAt(h, k, ch);
    assert k < j ==> !OpensAt(h, j, ch);
  }

  lemma TrackedIs(h: seq<Event>, k: nat, ch: ChannelId)
    requires LastOpen(h, k, ch)
    ensures TrackedBy(h, ch) == Some(h[k].cmd)
  {
    var j: nat :| LastOpen(h, j, ch) && TrackedBy(h, ch) == Some(h[j].cmd);
    LastOpenUnique(h, j, k, ch);
  }

  /** Adding an event changes nothing about the earlier ones. */
  lemma EarlierEvents(h: seq<Event>, e: Event, k: nat, ch: ChannelId)
    requires k < |h|
    ensures OpensAt(h + [e], k, ch) == OpensAt(h, k, ch)
    ensures ClosesAt(h + [e], k, ch) == ClosesAt(h, k, ch)
  {
    assert (h + [e])[..k] == h[..k];
  }

  lemma LastOpenSnoc(h: seq<Event>, e: Event, k: nat, ch: ChannelId)
    requires k < |h|
    ensures LastOpen(h + [e], k, ch)
       <==> LastOpen(h, k, ch) && !OpensAt(h + [e], |h|, ch) && !ClosesAt(h + [e], |h|, ch)
  {
    EarlierEvents(h, e, k, ch);
    forall j: nat | k < j < |h|
      ensures OpensAt(h + [e], j, ch) == OpensAt(h, j, ch) && ClosesAt(h + [e], j, ch) == ClosesAt(h, j, ch)
    {
      EarlierEvents(h, e, j, ch);
    }
  }

  /** How one event moves the open channels. */
  lemma TrackedSnoc(h: seq<Event>, e: Event, ch: ChannelId)
    ensures TrackedBy(h + [e], ch) ==
            if OpensAt(h + [e], |h|, ch) then Some(e.cmd)
            else if ClosesAt(h + [e], |h|, ch) then None
            else TrackedBy(h, ch)
  {
    var h' := h + [e];
    if OpensAt(h', |h|, ch) {
      assert LastOpen(h', |h|, ch);
      TrackedIs(h', |h|, ch);
    } else {
      forall k: nat
        ensures LastOpen(h', k, ch) <==> LastOpen(h, k, ch) && !ClosesAt(h', |h|, ch)
      {
        if k < |h| {
          LastOpenSnoc(h, e, k, ch);
        }
      }
      if k: nat :| LastOpen(h', k, ch) {
        TrackedIs(h', k, ch);
        TrackedIs(h, k, ch);
      }
    }
  }

  lemma ActorsStep(h: seq<Event>, e: Event, s: Tables)
    requires ActorsAgree(h, s.actors)
    ensures ActorsAgree(h + [e], Process(s, e).0.actors)
  {
    assert (h + [e])[..|h|] == h;
    forall a
      ensures MailboxBy(h + [e], a) ==
              var actors := Process(s, e).0.actors; if a in actors then Some(actors[a]) else None
    {
      assert MailboxBy(h, a) == if a in s.actors then Some(s.actors[a]) else None;
    }
  }

  /** When the actors agree, delivery to an actor does what the history says. */
  lemma DeliverMeans(h: seq<Event>, s: Tables, alive: set<MailboxId>, a: ActorId, msg: Message)
    requires ActorsAgree(h, s.actors)
    ensures var d := ToParticipant(h, Actor(a), alive, msg);
            && Deliver(s, alive, a, msg).0 == (if d.Some? then s.(mail := Put(s.mail, d.value.0, msg)) else s)
            && (Deliver(s, alive, a, msg).1 == Ok <==> d.Some?)
            && (Deliver(s, alive, a, msg).1 == Err <==> MailboxBy(h, a).None?)
  {
    assert MailboxBy(h, a) == if a in s.actors then Some(s.actors[a]) else None;
  }

  lemma ChannelsStep(h: seq<Event>, e: Event, s: Tables)
    requires ActorsAgree(h, s.actors) && ChannelsAgree(h, s.channels)
    ensures ChannelsAgree(h + [e], Process(s, e).0.channels)
  {
    assert (h + [e])[..|h|] == h;
    if e.cmd.OpenChannel? && e.cmd.to.Actor? {
      DeliverMeans(h, s, e.alive, e.cmd.to.id, Message.ChannelOpen(e.cmd.channel, e.cmd.initiator, e.cmd.body));
    }
    forall ch
      ensures ChannelAgrees(h + [e], Process(s, e).0.channels, ch)
    {
      assert ChannelAgrees(h, s.channels, ch);
      TrackedSnoc(h, e, ch);
    }
  }

  /** A command puts into the mailboxes exactly what the history says it delivers. */
  lemma MailMoves(h: seq<Event>, e: Event, s: Tables)
    requires ActorsAgree(h, s.actors) && ChannelsAgree(h, s.channels)
    ensures var d := DeliveryBy(h, e);
            Process(s, e).0.mail == if d.Some? then Put(s.mail, d.value.0, d.value.1) else s.mail
  {
    hide TrackedBy, Put, Reaches, MailboxBy;
    match e.cmd {
      case Register(_, _) =>
      case Unregister(_) =>
      case SendTo(a, msg) => DeliverMeans(h, s, e.alive, a, msg);
      case OpenChannel(to, ch, initiator, body, _) =>
        if to.Actor? {
          DeliverMeans(h, s, e.alive, to.id, Message.ChannelOpen(ch, initiator, body));
        }
      case SendOn(ch, sender, body) =>
        assert ChannelAgrees(h, s.channels, ch);
        var open := TrackedBy(h, ch);
        if open.Some? && Opposite(open.value, sender).Some? && Opposite(open.value, sender).value.Actor? {
          DeliverMeans(h, s, e.alive, Opposite(open.value, sender).value.id, Message.ChannelMessage(ch, body));
        }
      case CloseChannel(ch, sender) =>
        assert ChannelAgrees(h, s.channels, ch);
        var open := TrackedBy(h, ch);
        if open.Some? && Opposite(open.value, sender).Some? && Opposite(open.value, sender).value.Actor? {
          DeliverMeans(h, s.(channels := s.channels - {ch}), e.alive,
                       Opposite(open.value, sender).value.id, Message.ChannelClose(ch));
        }
    }
  }

  lemma MailStep(h: seq<Event>, e: Event, s: Tables)
    requires ActorsAgree(h, s.actors) && ChannelsAgree(h, s.channels) && MailAgrees(h, s.mail)
    ensures MailAgrees(h + [e], Process(s, e).0.mail)
  {
    hide Process, DeliveryBy, ActorsAgree, ChannelsAgree;
    MailMoves(h, e, s);
    assert (h + [e])[..|h|] == h;
    forall m
      ensures MailIn(Process(s, e).0.mail, m) == MailBy(h + [e], m)
    {
      assert MailIn(s.mail, m) == MailBy(h, m);
    }
  }

  /** After every run, the actor table, the channel table and every mailbox are exactly what
      the history of commands says, in the order the commands were processed. */
  lemma {:induction false} TablesMatchHistory(h: seq<Event>)
    ensures ActorsAgree(h, After(h).actors)
    ensures ChannelsAgree(h, After(h).channels)
    ensures MailAgrees(h, After(h).mail)
  {
    hide Process, DeliveryBy;
    if h != [] {
      var before, e := h[..|h| - 1], h[|h| - 1];
      TablesMatchHistory(before);
      assert before + [e] == h;
      assert After(h) == Process(After(before), e).0;
      StepAgrees(before, e, After(before));
    } else {
      forall ch ensures ChannelAgrees(h, After(h).channels, ch) {
        assert forall k: nat :: !LastOpen(h, k, ch);
      }
    }
  }

  lemma StepAgrees(h: seq<Event>, e: Event, s: Tables)
    requires ActorsAgree(h, s.actors) && ChannelsAgree(h, s.channels) && MailAgrees(h, s.mail)
    ensures ActorsAgree(h + [e], Process(s, e).0.actors)
    ensures ChannelsAgree(h + [e], Process(s, e).0.channels)
    ensures MailAgrees(h + [e], Process(s, e).0.mail)
  {
    hide Process, ActorsAgree, ChannelsAgree, MailAgrees;
    ActorsStep(h, e, s);
    ChannelsStep(h, e, s);
    MailStep(h, e, s);
  }

  // ----- What the senders are told -----

  /** A message to an actor is answered Ok exactly when it went into a mailbox, refused
      exactly when the actor is not registered, and otherwise left unanswered. */
  lemma SendAnswered(h: seq<Event>, k: nat)
    requires k < |h| && h[k].cmd.SendTo?
    ensures ReplyAt(h, k) == Ok <==> DeliveryBy(h[..k], h[k]).Some?
    ensures ReplyAt(h, k) == Err <==> MailboxBy(h[..k], h[k].cmd.target).None?
    ensures ReplyAt(h, k) in {Ok, Err, Dropped}
  {
    TablesMatchHistory(h[..k]);
    DeliverMeans(h[..k], After(h[..k]), h[k].alive, h[k].cmd.target, h[k].cmd.message);
  }

  /** An open is answered yes exactly when it opens the channel, and no exactly when the target
      was reached and refused. It is left unanswered exactly when the target is a registered
      actor whose mailbox is gone, and otherwise fails. */
  lemma OpenAnswered(h: seq<Event>, k: nat)
    requires k < |h| && h[k].cmd.OpenChannel?
    ensures ReplyAt(h, k) == Answer(true) <==> OpensAt(h, k, h[k].cmd.channel)
    ensures ReplyAt(h, k) == Answer(false) <==> DeliveryBy(h[..k], h[k]).Some? && h[k].cmd.answer == Refused
    ensures ReplyAt(h, k) == Dropped <==>
      && h[k].cmd.to.Actor? && MailboxBy(h[..k], h[k].cmd.to.id).Some?
      && Reaches(h[..k], h[k].cmd.to.id, h[k].alive).None?
    ensures ReplyAt(h, k) == Err <==>
      || h[k].cmd.to.External? || MailboxBy(h[..k], h[k].cmd.to.id).None?
      || (DeliveryBy(h[..k], h[k]).Some? && h[k].cmd.answer in {Error, NoAnswer})
  {
    var before, e := h[..k], h[k];
    TablesMatchHistory(before);
    if e.cmd.to.Actor? {
      DeliverMeans(before, After(before), e.alive, e.cmd.to.id,
                   Message.ChannelOpen(e.cmd.channel, e.cmd.initiator, e.cmd.body));
    }
  }

  /** A channel message is answered Ok exactly when the channel is open, the sender is one of
      its two participants, and the other one got it or is external. It is left unanswered
      exactly when the other one is a registered actor whose mailbox is gone, and otherwise fails. */
  lemma SendOnAnswered(h: seq<Event>, k: nat)
    requires k < |h| && h[k].cmd.SendOn?
    ensures var other := OtherBy(h[..k], h[k].cmd.channel, h[k].cmd.sender);
            && (ReplyAt(h, k) == Ok <==>
                  other.Some? && (other.value.External? || DeliveryBy(h[..k], h[k]).Some?))
            && (ReplyAt(h, k) == Err <==>
                  other.None? || (other.value.Actor? && MailboxBy(h[..k], other.value.id).None?))
            && ReplyAt(h, k) in {Ok, Err, Dropped}
  {
    hide TrackedBy, Reaches, MailboxBy;
    var before, e := h[..k], h[k];
    TablesMatchHistory(before);
    assert ChannelAgrees(before, After(before).channels, e.cmd.channel);
    var other := OtherBy(before, e.cmd.channel, e.cmd.sender);
    if other.Some? && other.value.Actor? {
      DeliverMeans(before, After(before), e.alive, other.value.id, Message.ChannelMessage(e.cmd.channel, e.cmd.body));
    }
  }

  /** A close is answered Ok exactly when the channel is open and the sender is one of its
      participants. */
  lemma CloseAnswered(h: seq<Event>, k: nat)
    requires k < |h| && h[k].cmd.CloseChannel?
    ensures ReplyAt(h, k) == Ok <==> OtherBy(h[..k], h[k].cmd.channel, h[k].cmd.sender).Some?
    ensures ReplyAt(h, k) in {Ok, Err}
  {
    hide TrackedBy, Reaches, MailboxBy;
    TablesMatchHistory(h[..k]);
    assert ChannelAgrees(h[..k], After(h[..k]).channels, h[k].cmd.channel);
  }

  /** A refused command may still change the channel table: it does so exactly when it is a
      close of an open channel by someone who is not one of its participants. */
  lemma RefusedStillCloses(h: seq<Event>, k: nat)
    requires k < |h| && ReplyAt(h, k) == Err
    ensures After(h[..k + 1]).channels != After(h[..k]).channels <==>
            && h[k].cmd.CloseChannel?
            && TrackedBy(h[..k], h[k].cmd.channel).Some?
            && Opposite(TrackedBy(h[..k], h[k].cmd.channel).value, h[k].cmd.sender).None?
  {
    hide TrackedBy, Reaches, MailboxBy;
    var before, e := h[..k], h[k];
    AfterSnoc(h, k);
    TablesMatchHistory(before);
    if e.cmd.CloseChannel? {
      assert ChannelAgrees(before, After(before).channels, e.cmd.channel);
    }
  }

  /** Every message delivered has its own place in its mailbox, in processing order: behind
      everything delivered there earlier, and before everything delivered later. */
  lemma {:induction false} PlaceInMailbox(h: seq<Event>, k: nat, m: MailboxId)
    requires k < |h|
    ensures MailIn(After(h[..k]).mail, m) <= MailIn(After(h).mail, m)
    ensures var d := DeliveryBy(h[..k], h[k]); d.Some? && d.value.0 == m ==>
              && |MailIn(After(h[..k]).mail, m)| < |MailIn(After(h).mail, m)|
              && MailIn(After(h).mail, m)[|MailIn(After(h[..k]).mail, m)|] == d.value.1
  {
    hide DeliveryBy, Process;
    TablesMatchHistory(h);
    TablesMatchHistory(h[..k]);
    MailGrows(h, k, m);
  }

  lemma {:induction false} MailGrows(h: seq<Event>, k: nat, m: MailboxId)
    requires k < |h|
    ensures MailBy(h[..k], m) <= MailBy(h, m)
    ensures var d := DeliveryBy(h[..k], h[k]); d.Some? && d.value.0 == m ==>
              && |MailBy(h[..k], m)| < |MailBy(h, m)|
              && MailBy(h, m)[|MailBy(h[..k], m)|] == d.value.1
  {
    hide DeliveryBy;
    var before := h[..|h| - 1];
    if k < |before| {
      assert before[..k] == h[..k];
      MailGrows(before, k, m);
    }
  }

  /** A close by an outsider is refused, and yet nobody can send on the channel afterwards. */
  lemma OutsiderCuts(h: seq<Event>, close: Event, send: Event)
    requires close.cmd.CloseChannel? && send.cmd.SendOn? && send.cmd.channel == close.cmd.channel
    requires TrackedBy(h, close.cmd.channel).Some?
    requires Opposite(TrackedBy(h, close.cmd.channel).value, close.cmd.sender).None?
    ensures ReplyAt(h + [close] + [send], |h|) == Err
    ensures ReplyAt(h + [close] + [send], |h| + 1) == Err
  {
    hide TrackedBy, After, LastOpen;
    var cut := h + [close];
    var h' := cut + [send];
    assert h'[..|h|] == h && h'[|h|] == close && h'[..|h| + 1] == cut;
    CloseAnswered(h', |h|);
    TrackedSnoc(h, close, close.cmd.channel);
    TablesMatchHistory(cut);
    assert ChannelAgrees(cut, After(cut).channels, close.cmd.channel);
  }

  /** An instance: actor 3 cuts the channel between actors 1 and 2. */
  lemma OutsiderExample(body: Bytes)
    ensures var alive := {2};
            var h := [Event(Register(2, 2), alive),
                      Event(OpenChannel(Actor(2), "c", Actor(1), body, Accepted), alive)];
            var close, send := Event(CloseChannel("c", Actor(3)), alive), Event(SendOn("c", Actor(1), body), alive);
            && ReplyAt(h + [close] + [send], 2) == Err
            && ReplyAt(h + [close] + [send], 3) == Err
  {
    var alive := {2};
    var h := [Event(Register(2, 2), alive),
              Event(OpenChannel(Actor(2), "c", Actor(1), body, Accepted), alive)];
    assert h[..1] == [h[0]];
    assert MailboxBy(h[..1], 2) == Some(2);
    assert LastOpen(h, 1, "c");
    TrackedIs(h, 1, "c");
    hide ReplyAt, TrackedBy;
    OutsiderCuts(h, Event(CloseChannel("c", Actor(3)), alive), Event(SendOn("c", Actor(1), body), alive));
  }

  lemma AfterSnoc(h: seq<Event>, k: nat)
    requires k < |h|
    ensures After(h[..k + 1]) == Process(After(h[..k]), h[k]).0
  {
    assert h[..k + 1][..k] == h[..k];
  }
}
