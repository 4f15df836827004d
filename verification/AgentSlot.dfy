/** An SSH-agent connection kept in a slot: key selection, and signing calls that time out or are cancelled. */
module AgentSlot {
  import opened Wrappers

  type Key = nat
  type Fingerprint = nat
  type Message = seq<int>

  datatype Candidate = Candidate(key: Key, fingerprint: Fingerprint)

  /** An agent identity: a certificate, or a public key that is of another kind, inadmissible or supported. */
  datatype Identity = Certificate | OtherKey | InadmissibleKey | Ordinary(ssh: nat, candidate: Candidate)

  datatype AgentError = NoIdentities | Inadmissible | NoSupportedKeys | MultipleMatches | NoMatch

  datatype Held = Held(ssh: nat, candidate: Candidate)

  // Opening a session.

  predicate Holds(held: seq<Held>, key: Key) {
    exists k | 0 <= k < |held| :: held[k].candidate.key == key
  }

  ghost predicate OnePerKey(held: seq<Held>) {
    forall i, j :: 0 <= i < j < |held| ==> held[i].candidate.key != held[j].candidate.key
  }

  predicate Offers(identity: Identity, held: Held) {
    identity == Ordinary(held.ssh, held.candidate)
  }

  /** The first of the identities that hold `key`. */
  ghost predicate FirstWith(identities: seq<Identity>, k: nat, key: Key) {
    && k < |identities| && identities[k].Ordinary? && identities[k].candidate.key == key
    && forall j :: 0 <= j < k && identities[j].Ordinary? ==> identities[j].candidate.key != key
  }

  /** Each held entry is the first identity of its key, in the agent's order. */
  ghost predicate FirstsInOrder(identities: seq<Identity>, held: seq<Held>, at: seq<nat>) {
    && |at| == |held|
    && (forall i :: 0 <= i < |held| ==>
          FirstWith(identities, at[i], held[i].candidate.key) && Offers(identities[at[i]], held[i]))
    && (forall i, j :: 0 <= i < j < |at| ==> at[i] < at[j])
  }

  ghost predicate Covers(identities: seq<Identity>, held: seq<Held>) {
    forall k :: 0 <= k < |identities| && identities[k].Ordinary? ==> Holds(held, identities[k].candidate.key)
  }

  method Open(identities: seq<Identity>) returns (r: Result<seq<Held>, AgentError>, ghost at: seq<nat>)
    ensures r.Ok? ==> OnePerKey(r.value) && FirstsInOrder(identities, r.value, at) && Covers(identities, r.value)
    ensures r.Ok? <==> InadmissibleKey !in identities && exists k :: 0 <= k < |identities| && identities[k].Ordinary?
    ensures r.Err? ==> (r.error == NoIdentities <==> identities == [])
  {
    at := [];
    if identities == [] {
      return Err(NoIdentities), at;
    }
    var supported: seq<Held> := [];
    for i := 0 to |identities|
      invariant OnePerKey(supported) && Covers(identities[..i], supported)
      invariant FirstsInOrder(identities, supported, at) && forall j :: 0 <= j < |at| ==> at[j] < i
      invariant InadmissibleKey !in identities[..i]
      invariant supported != [] <==> exists k :: 0 <= k < i && identities[k].Ordinary?
    {
      var identity := identities[i];
      match identity
      case InadmissibleKey => return Err(Inadmissible), at;
      case Ordinary(ssh, candidate) =>
        if !Holds(supported, candidate.key) {
          var next := Held(ssh, candidate);
          NewKeyIsFirst(identities, supported, i);
          HoldsMore(supported, next);
          supported := supported + [next];
          at := at + [i];
        }
      case _ =>
    }
    assert identities[..|identities|] == identities;
    if supported == [] {
      return Err(NoSupportedKeys), at;
    }
    return Ok(supported), at;
  }

  lemma NewKeyIsFirst(identities: seq<Identity>, held: seq<Held>, i: nat)
    requires i < |identities| && identities[i].Ordinary? && Covers(identities[..i], held)
    requires !Holds(held, identities[i].candidate.key)
    ensures FirstWith(identities, i, identities[i].candidate.key)
  {
    forall j | 0 <= j < i && identities[j].Ordinary?
      ensures identities[j].candidate.key != identities[i].candidate.key
    {
      assert identities[..i][j] == identities[j];
    }
  }

  lemma HoldsMore(held: seq<Held>, next: Held)
    ensures forall key :: Holds(held + [next], key) <==> Holds(held, key) || key == next.candidate.key
  {
    forall key
      ensures Holds(held + [next], key) <==> Holds(held, key) || key == next.candidate.key
    {
      if Holds(held, key) {
        var k :| 0 <= k < |held| && held[k].candidate.key == key;
        assert (held + [next])[k] == held[k];
      }
      assert (held + [next])[|held|] == next;
    }
  }

  // Selecting one key.

  function Find(candidates: seq<Candidate>, key: Key): (r: Option<Candidate>)
    ensures r.Some? ==> r.value in candidates && r.value.key == key
    ensures r.None? ==> forall k :: 0 <= k < |candidates| ==> candidates[k].key != key
  {
    if candidates == [] then None
    else if candidates[0].key == key then Some(candidates[0])
    else Find(candidates[1..], key)
  }

  /** The candidate an identity stands for, if the signer and the fingerprint allow it. */
  function Match(held: Held, candidates: Option<seq<Candidate>>, fingerprint: Option<Fingerprint>):
    (r: Option<Candidate>)
    ensures r.Some? ==> r.value.key == held.candidate.key
  {
    var candidate := if candidates.Some? then Find(candidates.value, held.candidate.key) else Some(held.candidate);
    if candidate.Some? && (fingerprint.None? || candidate.value.fingerprint == fingerprint.value)
    then candidate else None
  }

  /** Selects exactly when one held identity matches; an ambiguous choice is refused, never resolved. */
  method Select(held: seq<Held>, candidates: Option<seq<Candidate>>, fingerprint: Option<Fingerprint>)
    returns (r: Result<(nat, Candidate), AgentError>)
    requires OnePerKey(held)
    ensures r.Ok? ==> exists k :: && 0 <= k < |held| && held[k].ssh == r.value.0
                                  && Match(held[k], candidates, fingerprint) == Some(r.value.1)
                                  && forall j :: 0 <= j < |held| && j != k ==>
                                         Match(held[j], candidates, fingerprint).None?
    ensures r == Err(NoMatch) <==> forall j :: 0 <= j < |held| ==> Match(held[j], candidates, fingerprint).None?
    ensures r.Err? && r != Err(NoMatch) ==>
      exists i, j :: && 0 <= i < j < |held|
                     && Match(held[i], candidates, fingerprint).Some? && Match(held[j], candidates, fingerprint).Some?
  {
    hide Find;
    var matched: Option<(nat, Candidate)> := None;
    ghost var at: nat := |held|;
    for i := 0 to |held|
      invariant matched.None? ==> at == |held|
      invariant forall j :: 0 <= j < i && j != at ==> Match(held[j], candidates, fingerprint).None?
      invariant matched.Some? ==> && at < i && held[at].ssh == matched.value.0
                                  && Match(held[at], candidates, fingerprint) == Some(matched.value.1)
    {
      var candidate := Match(held[i], candidates, fingerprint);
      if candidate.Some? {
        if matched.Some? {
          if matched.value.1.key != candidate.value.key {
            return Err(MultipleMatches);
          }
        } else {
          matched := Some((held[i].ssh, candidate.value));
          at := i;
        }
      }
    }
    return if matched.Some? then Ok(matched.value) else Err(NoMatch);
  }

  // Signing.

  /** An agent answers the requests of a connection in order; `answered` of those sent have been read. */
  datatype Connection = Connection(sent: seq<Message>, answered: nat) {
    predicate Idle() {
      answered == |sent|
    }

    function Send(message: Message): Connection {
      Connection(sent + [message], answered)
    }

    /** The reply read next belongs to the oldest request without one. */
    function NextReply(): Message
      requires answered < |sent|
    {
      sent[answered]
    }

    function Read(): Connection {
      Connection(sent, answered + 1)
    }
  }

  /** How a reply looks to the caller. */
  datatype Quality = Sound | Refusal | OtherAlgorithm | WrongLength

  datatype Task =
    | Waiting(message: Message)
    | Signing(message: Message, connection: Connection, requested: bool)
    | Returned(message: Message, signed: Message)
    | Failed(message: Message)
    | Cancelled(message: Message)

  datatype Event =
    | Call(message: Message)
    | Acquire(task: nat)
    | Request(task: nat)
    | Reply(task: nat, quality: Quality)
    | Timeout(task: nat)
    | Cancel(task: nat)

  /** The slot, the caller that holds its lock, every call so far, and the messages sent to any connection. */
  datatype State = State(slot: Option<Connection>, holder: Option<nat>, tasks: seq<Task>, log: seq<Message>) {
    function With(task: nat, t: Task): State
      requires task < |tasks|
    {
      this.(tasks := tasks[task := t])
    }
  }

  function Initial(): State {
    State(Some(Connection([], 0)), None, [], [])
  }

  /** Locking the slot and taking its connection; an empty slot fails the call at once. */
  function AcquireSlot(s: State, i: nat): State
    requires i < |s.tasks| && s.tasks[i].Waiting?
  {
    match s.slot
    case None => s.With(i, Failed(s.tasks[i].message))
    case Some(connection) => s.With(i, Signing(s.tasks[i].message, connection, false)).(slot := None, holder := Some(i))
  }

  /** Only a sound signature puts the connection back; the lock is released either way. */
  function TakeReply(s: State, i: nat, quality: Quality): State
    requires i < |s.tasks| && s.tasks[i].Signing? && s.tasks[i].connection.answered < |s.tasks[i].connection.sent|
  {
    var t := s.tasks[i];
    if quality.Sound?
    then s.With(i, Returned(t.message, t.connection.NextReply())).(slot := Some(t.connection.Read()), holder := None)
    else s.With(i, Failed(t.message)).(holder := None)
  }

  predicate Enabled(s: State, e: Event) {
    match e
    case Call(_) => true
    case Acquire(i) => i < |s.tasks| && s.tasks[i].Waiting? && s.holder.None?
    case Request(i) => i < |s.tasks| && s.tasks[i].Signing? && !s.tasks[i].requested
    case Reply(i, _) =>
      && i < |s.tasks| && s.tasks[i].Signing? && s.tasks[i].requested
      && s.tasks[i].connection.answered < |s.tasks[i].connection.sent|
    case Timeout(i) => i < |s.tasks| && s.tasks[i].Signing?
    case Cancel(i) => i < |s.tasks| && (s.tasks[i].Waiting? || s.tasks[i].Signing?)
  }

  function Step(s: State, e: Event): State
    requires Enabled(s, e)
  {
    match e
    case Call(message) => s.(tasks := s.tasks + [Waiting(message)])
    case Acquire(i) => AcquireSlot(s, i)
    case Request(i) =>
      var t := s.tasks[i];
      s.With(i, Signing(t.message, t.connection.Send(t.message), true)).(log := s.log + [t.message])
    case Reply(i, quality) => TakeReply(s, i, quality)
    case Timeout(i) => s.With(i, Failed(s.tasks[i].message)).(holder := None)
    case Cancel(i) =>
      var t := s.tasks[i];
      s.With(i, Cancelled(t.message)).(holder := if t.Signing? then None else s.holder)
  }

  /** Events that are not enabled do not happen. */
  function Run(s: State, events: seq<Event>): State
    decreases |events|
  {
    if events == [] then s
    else Run(if Enabled(s, events[0]) then Step(s, events[0]) else s, events[1..])
  }

  ghost predicate IsHolder(s: State, i: nat) {
    s.holder == Some(i)
  }

  /**
   * The slot keeps only an idle connection; one caller at a time holds the connection, and its own request is
   * the only one that may be unanswered; every signature returned is the reply to the caller's own message.
   */
  ghost predicate Sane(s: State) {
    && (s.slot.Some? ==> s.slot.value.Idle() && s.holder.None? && s.slot.value.sent == s.log)
    && (s.holder.Some? ==> s.holder.value < |s.tasks| && s.tasks[s.holder.value].Signing?)
    && (forall i :: 0 <= i < |s.tasks| && s.tasks[i].Signing? ==>
          && IsHolder(s, i)
          && s.tasks[i].connection.sent == s.log
          && if s.tasks[i].requested then Awaiting(s.tasks[i].connection, s.tasks[i].message)
             else s.tasks[i].connection.Idle())
    && (forall i :: 0 <= i < |s.tasks| && s.tasks[i].Returned? ==> s.tasks[i].signed == s.tasks[i].message)
  }

  predicate Awaiting(c: Connection, message: Message) {
    |c.sent| > 0 && c.answered == |c.sent| - 1 && c.sent[c.answered] == message
  }

  /** The connection is gone for good. */
  predicate Closed(s: State) {
    s.slot.None? && s.holder.None?
  }

  lemma StepSane(s: State, e: Event)
    requires Sane(s) && Enabled(s, e)
    ensures Sane(Step(s, e))
  {
  }

  lemma {:induction false} RunsSane(s: State, events: seq<Event>)
    requires Sane(s)
    ensures Sane(Run(s, events))
    decreases |events|
  {
    if events != [] {
      if Enabled(s, events[0]) {
        StepSane(s, events[0]);
      }
      RunsSane(if Enabled(s, events[0]) then Step(s, events[0]) else s, events[1..]);
    }
  }

  /** Over every interleaving of calls, replies, timeouts and cancellations. */
  lemma RepliesAreOwn(events: seq<Event>, i: nat)
    requires var s := Run(Initial(), events); i < |s.tasks| && s.tasks[i].Returned?
    ensures var s := Run(Initial(), events); s.tasks[i].signed == s.tasks[i].message
  {
    RunsSane(Initial(), events);
  }

  /** The slot never offers a connection with an unanswered request. */
  lemma SlotIsIdle(events: seq<Event>)
    ensures var s := Run(Initial(), events); s.slot.Some? ==> s.slot.value.Idle() && s.slot.value.sent == s.log
  {
    RunsSane(Initial(), events);
  }

  /** A call that ends without a sound signature after taking the connection closes it. */
  lemma FailureCloses(s: State, e: Event)
    requires Sane(s) && Fails(s, e)
    ensures Closed(Step(s, e))
  {
  }

  /** Once closed, nothing is ever sent again and no call returns a signature. */
  lemma {:induction false} ClosedStays(s: State, events: seq<Event>)
    requires Sane(s) && Closed(s)
    ensures var after := Run(s, events);
      && Closed(after) && after.log == s.log && |s.tasks| <= |after.tasks|
      && forall i :: 0 <= i < |after.tasks| && after.tasks[i].Returned? ==>
            i < |s.tasks| && s.tasks[i] == after.tasks[i]
    decreases |events|
  {
    if events != [] {
      var next := if Enabled(s, events[0]) then Step(s, events[0]) else s;
      if Enabled(s, events[0]) {
        StepSane(s, events[0]);
        ClosedStep(s, events[0]);
      }
      ClosedStays(next, events[1..]);
    }
  }

  lemma ClosedStep(s: State, e: Event)
    requires Sane(s) && Closed(s) && Enabled(s, e)
    ensures var next := Step(s, e);
      && Closed(next) && next.log == s.log && |s.tasks| <= |next.tasks|
      && forall i :: 0 <= i < |next.tasks| && next.tasks[i].Returned? ==> i < |s.tasks| && s.tasks[i] == next.tasks[i]
  {
  }

  /** The event ends a call that holds the connection without a sound signature. */
  predicate Fails(s: State, e: Event) {
    Enabled(s, e) &&
    match e
    case Reply(_, quality) => !quality.Sound?
    case Timeout(_) => true
    case Cancel(i) => s.tasks[i].Signing?
    case _ => false
  }

  lemma {:induction false} RunSplits(s: State, first: seq<Event>, rest: seq<Event>)
    ensures Run(s, first + rest) == Run(Run(s, first), rest)
    decreases |first|
  {
    hide Enabled, Step;
    if first == [] {
      assert first + rest == rest;
    } else {
      assert (first + rest)[1..] == first[1..] + rest;
      RunSplits(if Enabled(s, first[0]) then Step(s, first[0]) else s, first[1..], rest);
    }
  }

  /**
   Whatever came before and whatever comes after: once one call that holds the connection fails,
   times out or is cancelled, nothing is sent any more, and only calls answered before it ever
   return a signature, each its own.
   */
  lemma OneFailureEndsAll(before: seq<Event>, failing: Event, rest: seq<Event>)
    requires Fails(Run(Initial(), before), failing)
    ensures var s, after := Run(Initial(), before), Run(Initial(), before + [failing] + rest);
      && Closed(after) && after.log == s.log && |s.tasks| <= |after.tasks|
      && forall i :: 0 <= i < |after.tasks| && after.tasks[i].Returned? ==>
           i < |s.tasks| && after.tasks[i] == s.tasks[i] && s.tasks[i].signed == s.tasks[i].message
  {
    hide Run, Closed;
    var s := Run(Initial(), before);
    RunsSane(Initial(), before);
    StepSane(s, failing);
    FailureCloses(s, failing);
    FailureReturnsNothing(s, failing);
    OneEvent(s, failing);
    RunSplits(Initial(), before, [failing]);
    RunSplits(Initial(), before + [failing], rest);
    ClosedStays(Step(s, failing), rest);
  }

  lemma OneEvent(s: State, e: Event)
    requires Enabled(s, e)
    ensures Run(s, [e]) == Step(s, e)
  {
    assert [e][1..] == [];
  }

  lemma FailureReturnsNothing(s: State, e: Event)
    requires Fails(s, e)
    ensures var next := Step(s, e);
      && next.log == s.log && |next.tasks| == |s.tasks|
      && forall i :: 0 <= i < |next.tasks| && next.tasks[i].Returned? ==> next.tasks[i] == s.tasks[i]
  {
  }

  // One call, as the adapter makes it.

  /** What the environment does to a call that holds the lock. */
  datatype Fate = CancelledEarly | CancelledLate | TimedOut | Replied(quality: Quality)

  function Events(i: nat, fate: Fate): seq<Event> {
    match fate
    case CancelledEarly => [Acquire(i), Cancel(i)]
    case CancelledLate => [Acquire(i), Request(i), Cancel(i)]
    case TimedOut => [Acquire(i), Request(i), Timeout(i)]
    case Replied(quality) => [Acquire(i), Request(i), Reply(i, quality)]
  }

  datatype Signature = Signature(signed: Message)

  class AgentSigner {
    var connection: Option<Connection>

    constructor ()
      ensures connection == Some(Connection([], 0))
    {
      connection := Some(Connection([], 0));
    }

    /** Takes the connection out of the slot, and puts it back only after a sound reply. */
    method TrySign(message: Message, fate: Fate) returns (r: Option<Signature>)
      requires connection.Some? ==> connection.value.Idle()
      modifies this
      ensures connection.Some? ==> connection.value.Idle()
      ensures r.Some? <==> old(connection).Some? && fate == Replied(Sound)
      ensures r.Some? ==> r.value.signed == message && connection == Some(old(connection).value.Send(message).Read())
      ensures r.None? ==> connection.None?
    {
      if connection.None? {
        return None;
      }
      var taken := connection.value;
      connection := None;
      if fate.CancelledEarly? {
        return None;
      }
      taken := taken.Send(message);
      if !fate.Replied? {
        return None;
      }
      var signed := taken.NextReply();
      taken := taken.Read();
      if !fate.quality.Sound? {
        return None;
      }
      connection := Some(taken);
      return Some(Signature(signed));
    }
  }

  /** The adapter's call is the run of its own events from acquiring the lock on. */
  lemma CallIsRun(s: State, i: nat, fate: Fate)
    requires Sane(s) && i < |s.tasks| && s.tasks[i].Waiting? && s.holder.None?
    ensures var after := Run(s, Events(i, fate));
      && after.holder.None? && i < |after.tasks|
      && if s.slot.Some? && fate == Replied(Sound)
         then && after.slot == Some(s.slot.value.Send(s.tasks[i].message).Read())
              && after.tasks[i] == Returned(s.tasks[i].message, s.tasks[i].message)
         else after.slot.None? && (after.tasks[i].Failed? || after.tasks[i].Cancelled?)
  {
    var e := Events(i, fate);
    var s1 := Step(s, e[0]);
    StepSane(s, e[0]);
    var s2 := if Enabled(s1, e[1]) then Step(s1, e[1]) else s1;
    assert Run(s, e) == Run(s1, e[1..]);
    assert e[1..][1..] == e[2..];
    assert Run(s1, e[1..]) == Run(s2, e[2..]);
    if |e| == 3 {
      var s3 := if Enabled(s2, e[2]) then Step(s2, e[2]) else s2;
      assert e[2..][1..] == [];
      assert Run(s2, e[2..]) == Run(s3, []);
    }
  }
}
