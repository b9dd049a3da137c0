/** The bounded priority queue of outgoing messages (src/coordinator/inter_sat_comm.{h,cpp}). */
module MessageQueues {
  import opened Wrappers
  import opened WireCodec

  /** `PriorityMessage`. */
  datatype Entry = Entry(message: Message, priority: int, timestamp: nat)

  /** `operator<`: the smaller entry leaves later. */
  predicate Below(a: Entry, b: Entry) {
    if a.priority != b.priority then a.priority > b.priority else a.timestamp > b.timestamp
  }

  /** What `std::priority_queue::top` may return. Entries of one priority and one timestamp are
      equivalent, and the library does not say which of them comes first. */
  predicate IsTop(q: multiset<Entry>, top: Entry) {
    top in q && forall e :: e in q ==> !Below(top, e)
  }

  lemma {:induction false} TopExists(q: multiset<Entry>) returns (top: Entry)
    requires q != multiset{}
    ensures IsTop(q, top)
    decreases |q|
  {
    top :| top in q;
    var rest := q - multiset{top};
    if rest != multiset{} {
      var best := TopExists(rest);
      if Below(top, best) {
        top := best;
      }
    }
  }

  // ----- the queue as a state machine -----

  /** What an observer sees of one call. */
  datatype Event =
    | Pushed(entry: Entry, ok: bool)
    | Popped(entry: Entry)
    | PopFailed
    | Cleared

  /** The queue after an event, if that event is possible. */
  function After(maxSize: nat, q: multiset<Entry>, e: Event): Option<multiset<Entry>> {
    match e
    case Pushed(entry, ok) =>
      if ok != (|q| < maxSize) then None else Some(if ok then q + multiset{entry} else q)
    case Popped(entry) => if IsTop(q, entry) then Some(q - multiset{entry}) else None
    case PopFailed => if q == multiset{} then Some(q) else None
    case Cleared => Some(multiset{})
  }

  /** The queue after a history that starts from the empty queue, if that history is possible. */
  function Replay(maxSize: nat, history: seq<Event>): Option<multiset<Entry>> {
    if history == [] then Some(multiset{})
    else
      var q :- Replay(maxSize, history[..|history| - 1]);
      After(maxSize, q, history[|history| - 1])
  }

  /** The entries one event accepts, hands out and clears away. */
  function Accepts(e: Event): multiset<Entry> {
    if e.Pushed? && e.ok then multiset{e.entry} else multiset{}
  }

  function Takes(e: Event): multiset<Entry> {
    if e.Popped? then multiset{e.entry} else multiset{}
  }

  function Loses(q: multiset<Entry>, e: Event): multiset<Entry> {
    if e.Cleared? then q else multiset{}
  }

  /** The same over a history. */
  function Accepted(history: seq<Event>): multiset<Entry> {
    if history == [] then multiset{}
    else Accepted(history[..|history| - 1]) + Accepts(history[|history| - 1])
  }

  function Taken(history: seq<Event>): multiset<Entry> {
    if history == [] then multiset{}
    else Taken(history[..|history| - 1]) + Takes(history[|history| - 1])
  }

  function Lost(maxSize: nat, history: seq<Event>): multiset<Entry>
    requires Replay(maxSize, history).Some?
  {
    if history == [] then multiset{}
    else
      var before := history[..|history| - 1];
      Lost(maxSize, before) + Loses(Replay(maxSize, before).value, history[|history| - 1])
  }

  lemma StepConserves(maxSize: nat, q: multiset<Entry>, e: Event)
    requires After(maxSize, q, e).Some? && |q| <= maxSize
    ensures var next := After(maxSize, q, e).value;
      |next| <= maxSize && q + Accepts(e) == Takes(e) + Loses(q, e) + next
  {
  }

  lemma Balance<T>(a: multiset<T>, t: multiset<T>, l: multiset<T>, q: multiset<T>,
                   a': multiset<T>, t': multiset<T>, l': multiset<T>, q': multiset<T>)
    requires a == t + l + q && q + a' == t' + l' + q'
    ensures a + a' == (t + t') + (l + l') + q'
  {
    assert a + a' == t + l + (q + a');
  }

  /** Over every history the queue stays within its bound, and every accepted entry is popped,
      cleared or still queued, exactly once. */
  lemma {:induction false} BoundedAndConserved(maxSize: nat, history: seq<Event>)
    requires Replay(maxSize, history).Some?
    ensures var q := Replay(maxSize, history).value;
      && |q| <= maxSize
      && Accepted(history) == Taken(history) + Lost(maxSize, history) + q
  {
    if history != [] {
      var before, e := history[..|history| - 1], history[|history| - 1];
      BoundedAndConserved(maxSize, before);
      var q := Replay(maxSize, before).value;
      StepConserves(maxSize, q, e);
      Balance(Accepted(before), Taken(before), Lost(maxSize, before), q,
              Accepts(e), Takes(e), Loses(q, e), After(maxSize, q, e).value);
    }
  }

  // ----- first come, first served within a priority -----

  /** The place of the first entry of the most urgent priority in a line kept in arrival order. */
  function First(line: seq<Entry>): (i: nat)
    requires line != []
    ensures i < |line|
    ensures forall j :: 0 <= j < |line| ==> line[i].priority <= line[j].priority
    ensures forall j :: 0 <= j < i ==> line[i].priority < line[j].priority
  {
    if |line| == 1 then 0
    else
      var i := First(line[..|line| - 1]);
      if line[|line| - 1].priority < line[i].priority then |line| - 1 else i
  }

  function Without(line: seq<Entry>, i: nat): seq<Entry>
    requires i < |line|
  {
    line[..i] + line[i + 1..]
  }

  /** A queue that never looks at timestamps: one line in arrival order, served at the first
      entry of the most urgent priority. */
  function Served(maxSize: nat, line: seq<Entry>, e: Event): Option<seq<Entry>> {
    match e
    case Pushed(entry, ok) => if ok != (|line| < maxSize) then None else Some(if ok then line + [entry] else line)
    case Popped(entry) =>
      if line == [] || entry != line[First(line)] then None else Some(Without(line, First(line)))
    case PopFailed => if line == [] then Some(line) else None
    case Cleared => Some([])
  }

  function Line(maxSize: nat, history: seq<Event>): Option<seq<Entry>> {
    if history == [] then Some([])
    else
      var line :- Line(maxSize, history[..|history| - 1]);
      Served(maxSize, line, history[|history| - 1])
  }

  function Entering(e: Event): seq<Entry> {
    if e.Pushed? && e.ok then [e.entry] else []
  }

  /** `x` came first and is the smaller of the two, or nobody can tell them apart. Entries of
      different priorities never compete. */
  predicate Precedes(x: Entry, y: Entry) {
    x.priority == y.priority ==> x.timestamp < y.timestamp || x == y
  }

  predicate InOrder(line: seq<Entry>) {
    forall i, j :: 0 <= i < j < |line| ==> Precedes(line[i], line[j])
  }

  /** The clock moves between any two accepted pushes of one priority. */
  predicate ClockAdvances(history: seq<Event>) {
    forall i, j :: 0 <= i < j < |history| && Entering(history[i]) != [] && Entering(history[j]) != [] ==>
      Precedes(history[i].entry, history[j].entry)
  }

  lemma MembersOfLine(line: seq<Entry>, i: nat)
    requires i < |line|
    ensures multiset(Without(line, i)) == multiset(line) - multiset{line[i]}
    ensures forall e :: e in Without(line, i) ==> e in line
  {
    assert line == line[..i] + ([line[i]] + line[i + 1..]);
  }

  /** In a line in order there is one possible top, and it is the first entry of the most urgent
      priority. */
  lemma TopIsFirst(line: seq<Entry>, top: Entry)
    requires InOrder(line) && line != []
    ensures IsTop(multiset(line), top) <==> top == line[First(line)]
  {
    var i := First(line);
    if IsTop(multiset(line), top) {
      assert top in line;
      var j :| 0 <= j < |line| && line[j] == top;
      assert line[i] in multiset(line);
      assert !Below(line[j], line[i]);
      assert j > i ==> Precedes(line[i], line[j]);
    }
    if top == line[i] {
      forall e | e in multiset(line) ensures !Below(top, e) {
        assert e in line;
        var j :| 0 <= j < |line| && line[j] == e;
        assert j > i ==> Precedes(line[i], line[j]);
      }
    }
  }

  /** Entries in line were accepted earlier in the history. */
  ghost predicate PushedIn(history: seq<Event>, line: seq<Entry>) {
    forall e :: e in line ==> AcceptedIn(history, e)
  }

  ghost predicate AcceptedIn(history: seq<Event>, e: Entry) {
    exists i :: 0 <= i < |history| && Entering(history[i]) == [e]
  }

  lemma PushStep(history: seq<Event>, line: seq<Entry>, e: Event)
    requires e.Pushed? && e.ok && ClockAdvances(history + [e]) && InOrder(line) && PushedIn(history, line)
    ensures InOrder(line + [e.entry]) && PushedIn(history + [e], line + [e.entry])
  {
    var longer := history + [e];
    assert longer[|history|] == e && Entering(e) == [e.entry];
    forall x | x in line ensures Precedes(x, e.entry) {
      var i :| 0 <= i < |history| && Entering(history[i]) == [x];
      assert longer[i] == history[i];
    }
    assert AcceptedIn(longer, e.entry);
    Earlier(history, line, e);
  }

  lemma PopStep(line: seq<Entry>)
    requires InOrder(line) && line != []
    ensures InOrder(Without(line, First(line)))
  {
  }

  lemma Earlier(history: seq<Event>, line: seq<Entry>, e: Event)
    requires PushedIn(history, line)
    ensures PushedIn(history + [e], line)
  {
    forall x | x in line ensures AcceptedIn(history + [e], x) {
      var i :| 0 <= i < |history| && Entering(history[i]) == [x];
      assert (history + [e])[i] == history[i];
    }
  }

  lemma ServedStep(maxSize: nat, history: seq<Event>, line: seq<Entry>, e: Event)
    requires ClockAdvances(history + [e]) && InOrder(line) && PushedIn(history, line)
    ensures After(maxSize, multiset(line), e).Some? <==> Served(maxSize, line, e).Some?
    ensures Served(maxSize, line, e).Some? ==>
              var next := Served(maxSize, line, e).value;
              After(maxSize, multiset(line), e) == Some(multiset(next)) && InOrder(next) &&
                PushedIn(history + [e], next)
  {
    Earlier(history, line, e);
    match e
    case Pushed(entry, ok) =>
      if ok {
        PushStep(history, line, e);
      }
    case Popped(entry) =>
      if line != [] {
        TopIsFirst(line, entry);
        PopStep(line);
        MembersOfLine(line, First(line));
      }
    case PopFailed =>
    case Cleared =>
  }

  /** While the clock moves between accepted pushes of one priority, the priority queue and the
      line in arrival order have the same histories. */
  lemma {:induction false} QueueServesInArrivalOrder(maxSize: nat, history: seq<Event>)
    requires ClockAdvances(history)
    ensures Replay(maxSize, history).Some? <==> Line(maxSize, history).Some?
    ensures Line(maxSize, history).Some? ==>
              var line := Line(maxSize, history).value;
              Replay(maxSize, history) == Some(multiset(line)) && InOrder(line) && PushedIn(history, line)
  {
    if history != [] {
      var before, e := history[..|history| - 1], history[|history| - 1];
      QueueServesInArrivalOrder(maxSize, before);
      assert history == before + [e];
      if Line(maxSize, before).Some? {
        ServedStep(maxSize, before, Line(maxSize, before).value, e);
      }
    }
  }

  // ----- and only then -----

  function Pops(entries: seq<Entry>): seq<Event> {
    if entries == [] then [] else [Popped(entries[0])] + Pops(entries[1..])
  }

  /** Pops that a queue, and that a line, may answer with these entries. */
  predicate QueueGives(q: multiset<Entry>, entries: seq<Entry>) {
    entries == [] || (IsTop(q, entries[0]) && QueueGives(q - multiset{entries[0]}, entries[1..]))
  }

  predicate LineGives(line: seq<Entry>, entries: seq<Entry>)
    decreases |entries|
  {
    entries == [] ||
    (line != [] && entries[0] == line[First(line)] && LineGives(Without(line, First(line)), entries[1..]))
  }

  lemma {:induction false} PopsReplayed(maxSize: nat, history: seq<Event>, entries: seq<Entry>)
    ensures Replay(maxSize, history + Pops(entries)).Some? <==>
            Replay(maxSize, history).Some? && QueueGives(Replay(maxSize, history).value, entries)
    ensures Line(maxSize, history + Pops(entries)).Some? <==>
            Line(maxSize, history).Some? && LineGives(Line(maxSize, history).value, entries)
    decreases |entries|
  {
    if entries == [] {
      assert history + [] == history;
    } else {
      var next := history + [Popped(entries[0])];
      assert next[..|next| - 1] == history && next + Pops(entries[1..]) == history + Pops(entries);
      PopsReplayed(maxSize, next, entries[1..]);
    }
  }

  lemma {:induction false} InOrderGives(line: seq<Entry>, entries: seq<Entry>)
    requires InOrder(line) && QueueGives(multiset(line), entries)
    ensures LineGives(line, entries)
    decreases |entries|
  {
    if entries != [] {
      assert entries[0] in line;
      TopIsFirst(line, entries[0]);
      MembersOfLine(line, First(line));
      PopStep(line);
      InOrderGives(Without(line, First(line)), entries[1..]);
    }
  }

  /** Two entries out of order stay so while neither has been served. */
  lemma OutOfOrderStays(line: seq<Entry>)
    requires line != [] && !InOrder(line)
    requires forall top :: IsTop(multiset(line), top) ==> top == line[First(line)]
    ensures !InOrder(Without(line, First(line)))
  {
    var f := First(line);
    var i, j :| 0 <= i < j < |line| && !Precedes(line[i], line[j]);
    var top := TopExists(multiset(line));
    if i == f {
      SameRankIsTop(line, f, j);
    }
    assert i != f && j != f;
    OthersStay(line, f, i, j);
  }

  lemma OthersStay(line: seq<Entry>, f: nat, i: nat, j: nat)
    requires f < |line| && i < j < |line| && i != f && j != f && !Precedes(line[i], line[j])
    ensures !InOrder(Without(line, f))
  {
    var rest := Without(line, f);
    var i', j' := if i < f then i else i - 1, if j < f then j else j - 1;
    assert rest[i'] == line[i] && rest[j'] == line[j];
  }

  lemma SameRankIsTop(line: seq<Entry>, f: nat, j: nat)
    requires f < j < |line| && IsTop(multiset(line), line[f]) && !Precedes(line[f], line[j])
    ensures IsTop(multiset(line), line[j]) && line[j] != line[f]
  {
    assert line[j] in multiset(line);
    assert !Below(line[f], line[j]);
    forall e | e in multiset(line) ensures !Below(line[j], e) {
      assert !Below(line[f], e);
    }
  }

  lemma {:induction false} SomeoneOvertakes(line: seq<Entry>) returns (entries: seq<Entry>)
    requires !InOrder(line)
    ensures QueueGives(multiset(line), entries) && !LineGives(line, entries)
    decreases |line|
  {
    var top := TopExists(multiset(line));
    var head := line[First(line)];
    if other :| IsTop(multiset(line), other) && other != head {
      entries := [other];
    } else {
      OutOfOrderStays(line);
      MembersOfLine(line, First(line));
      var rest := SomeoneOvertakes(Without(line, First(line)));
      entries := [head] + rest;
      assert entries[1..] == rest;
    }
  }

  /** From any point at which queue and line agree, every answer of the queue to later pops is in
      arrival order exactly when no two queued entries of one priority that can be told apart
      have timestamps that fail to increase. */
  lemma ArrivalOrderIsExact(maxSize: nat, history: seq<Event>)
    requires Line(maxSize, history).Some?
    requires Replay(maxSize, history) == Some(multiset(Line(maxSize, history).value))
    ensures InOrder(Line(maxSize, history).value) <==>
            forall entries :: Replay(maxSize, history + Pops(entries)).Some? ==>
              Line(maxSize, history + Pops(entries)).Some?
  {
    var line := Line(maxSize, history).value;
    forall entries
      ensures Replay(maxSize, history + Pops(entries)).Some? <==> QueueGives(multiset(line), entries)
      ensures Line(maxSize, history + Pops(entries)).Some? <==> LineGives(line, entries)
    {
      PopsReplayed(maxSize, history, entries);
    }
    if InOrder(line) {
      forall entries | Replay(maxSize, history + Pops(entries)).Some?
        ensures Line(maxSize, history + Pops(entries)).Some?
      {
        InOrderGives(line, entries);
      }
    } else {
      var entries := SomeoneOvertakes(line);
      PopsReplayed(maxSize, history, entries);
    }
  }

  /** The entries of one priority, in their order. */
  function Lane(line: seq<Entry>, priority: int): seq<Entry> {
    if line == [] then []
    else
      var e := line[|line| - 1];
      Lane(line[..|line| - 1], priority) + if e.priority == priority then [e] else []
  }

  function Leaving(line: seq<Entry>, e: Event): seq<Entry> {
    match e
    case Popped(entry) => [entry]
    case Cleared => line
    case _ => []
  }

  /** The accepted entries, and those that left (by `pop` or `clear`), in order. */
  function Arrivals(history: seq<Event>): seq<Entry> {
    if history == [] then []
    else Arrivals(history[..|history| - 1]) + Entering(history[|history| - 1])
  }

  function Departures(maxSize: nat, history: seq<Event>): seq<Entry>
    requires Line(maxSize, history).Some?
  {
    if history == [] then []
    else
      var before := history[..|history| - 1];
      Departures(maxSize, before) + Leaving(Line(maxSize, before).value, history[|history| - 1])
  }

  lemma {:induction false} LaneAppend(a: seq<Entry>, b: seq<Entry>, priority: int)
    ensures Lane(a + b, priority) == Lane(a, priority) + Lane(b, priority)
  {
    if b == [] {
      assert a + b == a;
    } else {
      var n := |b| - 1;
      assert (a + b)[..|a + b| - 1] == a + b[..n];
      LaneAppend(a, b[..n], priority);
    }
  }

  lemma {:induction false} LaneEmpty(line: seq<Entry>, priority: int)
    requires forall i :: 0 <= i < |line| ==> line[i].priority != priority
    ensures Lane(line, priority) == []
  {
    if line != [] {
      LaneEmpty(line[..|line| - 1], priority);
    }
  }

  lemma LaneMove(front: seq<Entry>, e: Entry, back: seq<Entry>, priority: int)
    requires e.priority == priority ==> Lane(front, priority) == []
    ensures Lane(front + ([e] + back), priority) == Lane([e], priority) + Lane(front + back, priority)
  {
    LaneAppend(front, [e] + back, priority);
    LaneAppend([e], back, priority);
    LaneAppend(front, back, priority);
    if e.priority != priority {
      LaneEmpty([e], priority);
    }
  }

  /** The entry served is the head of its lane; the other lanes do not move. */
  lemma LaneServed(line: seq<Entry>, priority: int)
    requires line != []
    ensures Lane(line, priority) ==
            Lane([line[First(line)]], priority) + Lane(Without(line, First(line)), priority)
  {
    var i := First(line);
    if line[i].priority == priority {
      LaneEmpty(line[..i], priority);
    }
    LaneMove(line[..i], line[i], line[i + 1..], priority);
    Cut(line, i);
  }

  lemma Cut(line: seq<Entry>, i: nat)
    requires i < |line|
    ensures line == line[..i] + ([line[i]] + line[i + 1..])
  {
  }

  /** In every priority class the entries leave in the order in which they were accepted. */
  lemma {:induction false} LanesAreFifo(maxSize: nat, history: seq<Event>, priority: int)
    requires ClockAdvances(history) && Replay(maxSize, history).Some?
    ensures Line(maxSize, history).Some?
    ensures Lane(Arrivals(history), priority) ==
            Lane(Departures(maxSize, history), priority) + Lane(Line(maxSize, history).value, priority)
  {
    QueueServesInArrivalOrder(maxSize, history);
    if history != [] {
      var before, e := history[..|history| - 1], history[|history| - 1];
      LanesAreFifo(maxSize, before, priority);
      var line := Line(maxSize, before).value;
      LaneStep(maxSize, Arrivals(before), Departures(maxSize, before), line, e, priority);
    }
  }

  lemma LaneStep(maxSize: nat, arrived: seq<Entry>, left: seq<Entry>, line: seq<Entry>, e: Event, priority: int)
    requires Served(maxSize, line, e).Some?
    requires Lane(arrived, priority) == Lane(left, priority) + Lane(line, priority)
    ensures Lane(arrived + Entering(e), priority) ==
            Lane(left + Leaving(line, e), priority) + Lane(Served(maxSize, line, e).value, priority)
  {
    var next := Served(maxSize, line, e).value;
    LaneAppend(arrived, Entering(e), priority);
    LaneAppend(left, Leaving(line, e), priority);
    LaneMoves(maxSize, line, e, priority);
    Regroup(Lane(left, priority), Lane(line, priority), Lane(Entering(e), priority),
            Lane(Leaving(line, e), priority), Lane(next, priority));
  }

  lemma Regroup(d: seq<Entry>, l: seq<Entry>, x: seq<Entry>, y: seq<Entry>, l': seq<Entry>)
    requires l + x == y + l'
    ensures d + l + x == d + y + l'
  {
    assert d + l + x == d + (l + x);
    assert d + y + l' == d + (y + l');
  }

  lemma LaneMoves(maxSize: nat, line: seq<Entry>, e: Event, priority: int)
    requires Served(maxSize, line, e).Some?
    ensures Lane(line, priority) + Lane(Entering(e), priority) ==
            Lane(Leaving(line, e), priority) + Lane(Served(maxSize, line, e).value, priority)
  {
    match e
    case Pushed(entry, ok) => LaneAppend(line, Entering(e), priority);
    case Popped(entry) => LaneServed(line, priority);
    case PopFailed =>
    case Cleared =>
  }

  /** Two messages pushed within one millisecond have no order: both histories are possible. */
  lemma TiesMayOvertake(a: Entry, b: Entry)
    requires a.priority == b.priority && a.timestamp == b.timestamp
    ensures Replay(2, [Pushed(a, true), Pushed(b, true), Popped(a)]).Some?
    ensures Replay(2, [Pushed(a, true), Pushed(b, true), Popped(b)]).Some?
  {
    ReplayThree(a, b, a);
    ReplayThree(a, b, b);
  }

  lemma ReplayOneMore(maxSize: nat, history: seq<Event>, e: Event)
    requires Replay(maxSize, history).Some?
    ensures Replay(maxSize, history + [e]) == After(maxSize, Replay(maxSize, history).value, e)
  {
    assert (history + [e])[..|history|] == history;
  }

  lemma ReplayThree(a: Entry, b: Entry, out: Entry)
    requires a.priority == b.priority && a.timestamp == b.timestamp && (out == a || out == b)
    ensures Replay(2, [Pushed(a, true), Pushed(b, true), Popped(out)]).Some?
  {
    var pushA, pushB := Pushed(a, true), Pushed(b, true);
    ReplayOneMore(2, [], pushA);
    assert [] + [pushA] == [pushA];
    ReplayOneMore(2, [pushA], pushB);
    assert [pushA] + [pushB] == [pushA, pushB];
    ReplayOneMore(2, [pushA, pushB], Popped(out));
    assert [pushA, pushB] + [Popped(out)] == [pushA, pushB, Popped(out)];
  }

  // ----- the class -----

  class MessageQueue {
    const maxSize: nat
    var queue: multiset<Entry>

    constructor (maxSize: nat)
      ensures this.maxSize == maxSize && queue == multiset{}
    {
      this.maxSize := maxSize;
      queue := multiset{};
    }

    /** `now` is the system clock in milliseconds. */
    method Push(message: Message, now: nat) returns (ok: bool)
      modifies this`queue
      ensures var entry := Entry(message, message.header.priority, now);
        After(maxSize, old(queue), Pushed(entry, ok)) == Some(queue)
    {
      if |queue| >= maxSize {
        return false;
      }
      var entry := Entry(message, message.header.priority, now);
      queue := queue + multiset{entry};
      ok := true;
    }

    /** `pop` when its wait has ended: with an entry queued, or by the timeout. */
    method Pop() returns (message: Option<Message>)
      modifies this`queue
      ensures message.None? ==> After(maxSize, old(queue), PopFailed) == Some(queue)
      ensures message.Some? ==>
        exists entry: Entry :: entry.message == message.value &&
          After(maxSize, old(queue), Popped(entry)) == Some(queue)
    {
      if queue == multiset{} {
        return None;
      }
      ghost var best := TopExists(queue);
      var top: Entry :| top in queue && IsTop(queue, top);
      message := Some(top.message);
      queue := queue - multiset{top};
      assert After(maxSize, old(queue), Popped(top)) == Some(queue);
    }

    method Clear()
      modifies this`queue
      ensures After(maxSize, old(queue), Cleared) == Some(queue)
    {
      while queue != multiset{}
        decreases |queue|
      {
        var popped := Pop();
      }
    }
  }
}
