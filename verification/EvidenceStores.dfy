/** proxy/src/evidence-do.js and the in-memory store of proxy/src/evidence.js: an envelope lives on the filing
    window until its first disclosure, which then guarantees an adjudication runway. */
module EvidenceStores {
  import opened Basics

  /** Calls on one store; `Alarm` is the runtime waking the object of one request, as late as it likes. */
  datatype Action =
    | Store(envelope: string, ttl: nat)
    | Read(runway: nat)
    | Alarm

  /** An action on the entry of `id`, made at clock reading `now`. */
  datatype Event = Event(id: string, now: nat, action: Action)

  datatype Entry = Entry(envelope: string, expiresAt: nat, disclosed: bool)

  /** The entry once it has been disclosed at `now`; only the first disclosure moves the deadline. */
  function Disclosed(e: Entry, now: nat, runway: nat): Entry {
    if e.disclosed then e else Entry(e.envelope, Max(e.expiresAt, now + runway), true)
  }

  // ---------------------------------------------------------------- the Durable Object of one request

  /** Its storage, and the time its alarm is set for. */
  datatype Object = Object(entry: Option<Entry>, alarmAt: Option<nat>)

  const FRESH := Object(None, None)

  function ObjectStep(o: Object, now: nat, a: Action): (Object, Option<string>) {
    match a
    case Store(envelope, ttl) => (Object(Some(Entry(envelope, now + ttl, false)), Some(now + ttl)), None)
    case Read(runway) =>
      if o.entry.None? || o.entry.value.expiresAt <= now then (o, None)
      else
        var e := Disclosed(o.entry.value, now, runway);
        (Object(Some(e), if o.entry.value.disclosed then o.alarmAt else Some(e.expiresAt)), Some(e.envelope))
    case Alarm => (FRESH, None)
  }

  /** Each request id has its own object. */
  function ObjectAfter(trace: seq<Event>, id: string): Object {
    if trace == [] then FRESH
    else
      var o := ObjectAfter(trace[..|trace| - 1], id);
      var last := trace[|trace| - 1];
      if last.id == id then ObjectStep(o, last.now, last.action).0 else o
  }

  function ObjectAnswer(trace: seq<Event>, i: nat): Option<string>
    requires i < |trace|
  {
    ObjectStep(ObjectAfter(trace[..i], trace[i].id), trace[i].now, trace[i].action).1
  }

  // ---------------------------------------------------------------- the map

  function MemoryStep(entries: map<string, Entry>, e: Event): (map<string, Entry>, Option<string>) {
    match e.action
    case Store(envelope, ttl) => (entries[e.id := Entry(envelope, e.now + ttl, false)], None)
    case Read(runway) =>
      if e.id !in entries then (entries, None)
      else if entries[e.id].expiresAt <= e.now then (entries - {e.id}, None)
      else (entries[e.id := Disclosed(entries[e.id], e.now, runway)], Some(entries[e.id].envelope))
    case Alarm => (entries, None)
  }

  function MemoryAfter(trace: seq<Event>): map<string, Entry> {
    if trace == [] then map[] else MemoryStep(MemoryAfter(trace[..|trace| - 1]), trace[|trace| - 1]).0
  }

  function MemoryAnswer(trace: seq<Event>, i: nat): Option<string>
    requires i < |trace|
  {
    MemoryStep(MemoryAfter(trace[..i]), trace[i]).1
  }

  // ---------------------------------------------------------------- legal runs

  /** The clock never goes back, and an object is woken only at or after the time its alarm is set for. */
  ghost predicate Legal(trace: seq<Event>)
    decreases |trace|
  {
    trace != [] ==>
      var init, last := trace[..|trace| - 1], trace[|trace| - 1];
      && Legal(init)
      && (init != [] ==> init[|init| - 1].now <= last.now)
      && (last.action.Alarm? ==>
            ObjectAfter(init, last.id).alarmAt.Some? && ObjectAfter(init, last.id).alarmAt.value <= last.now)
  }

  function Clock(trace: seq<Event>): nat { if trace == [] then 0 else trace[|trace| - 1].now }

  function MemoryEntry(trace: seq<Event>, id: string): Option<Entry> {
    if id in MemoryAfter(trace) then Some(MemoryAfter(trace)[id]) else None
  }

  function Live(e: Option<Entry>, now: nat): Option<Entry> { if e.Some? && e.value.expiresAt > now then e else None }

  /** Between the two stores only expired entries may differ, and an alarm is set for no earlier than the
      deadline it enforces. */
  lemma {:induction false} SameLiveEntry(trace: seq<Event>, id: string, now: nat)
    requires Legal(trace) && Clock(trace) <= now
    ensures Live(ObjectAfter(trace, id).entry, now) == Live(MemoryEntry(trace, id), now)
    ensures var o := ObjectAfter(trace, id); o.entry.Some? ==> o.alarmAt == Some(o.entry.value.expiresAt)
  {
    if trace != [] {
      var init, last := trace[..|trace| - 1], trace[|trace| - 1];
      SameLiveEntry(init, id, now);
      SameLiveEntry(init, id, last.now);
    }
  }

  /** Whatever is stored and read, however the clock advances and however late the alarms come, both stores
      give the same answers. */
  lemma StoresAgree(trace: seq<Event>, i: nat)
    requires Legal(trace) && i < |trace|
    ensures ObjectAnswer(trace, i) == MemoryAnswer(trace, i)
  {
    LegalPrefix(trace, i);
    LegalPrefix(trace, i + 1);
    assert trace[..i + 1][..i] == trace[..i];
    SameLiveEntry(trace[..i], trace[i].id, trace[i].now);
    hide ObjectAfter, MemoryAfter, Legal;
  }

  lemma {:induction false} LegalPrefix(trace: seq<Event>, n: nat)
    requires Legal(trace) && n <= |trace|
    ensures Legal(trace[..n])
  {
    if n < |trace| {
      LegalPrefix(trace[..|trace| - 1], n);
      assert trace[..|trace| - 1][..n] == trace[..n];
    } else {
      assert trace[..n] == trace;
    }
  }

  // ---------------------------------------------------------------- the two clocks

  /** From `a` on and before `b`, nothing replaces the envelope of `id`. */
  ghost predicate NotReplaced(trace: seq<Event>, id: string, a: nat, b: nat) {
    forall k :: a <= k < b && k < |trace| && trace[k].id == id ==> !trace[k].action.Store?
  }

  ghost predicate NotRead(trace: seq<Event>, id: string, a: nat, b: nat) {
    forall k :: a <= k < b && k < |trace| && trace[k].id == id ==> !trace[k].action.Read?
  }

  lemma {:induction false} ClockGrows(trace: seq<Event>, i: nat, j: nat)
    requires Legal(trace) && i <= j < |trace|
    ensures trace[i].now <= trace[j].now
  {
    if j < |trace| - 1 {
      ClockGrows(trace[..|trace| - 1], i, j);
    } else if i < j {
      ClockGrows(trace[..|trace| - 1], i, j - 1);
    }
  }

  lemma MemoryPrefixStep(trace: seq<Event>, n: nat)
    requires n < |trace|
    ensures MemoryAfter(trace[..n + 1]) == MemoryStep(MemoryAfter(trace[..n]), trace[n]).0
  {
    assert trace[..n + 1][..n] == trace[..n];
  }

  /** Until its first read, an envelope keeps the deadline it was stored with. */
  lemma {:induction false} KeptUntilRead(trace: seq<Event>, s: nat, n: nat)
    requires Legal(trace) && s < n <= |trace| && trace[s].action.Store?
    requires NotReplaced(trace, trace[s].id, s + 1, n) && NotRead(trace, trace[s].id, s + 1, n)
    ensures MemoryEntry(trace[..n], trace[s].id)
            == Some(Entry(trace[s].action.envelope, trace[s].now + trace[s].action.ttl, false))
  {
    MemoryPrefixStep(trace, n - 1);
    hide MemoryAfter, Legal;
    if n > s + 1 { KeptUntilRead(trace, s, n - 1); }
  }

  /** After a first read in time, the deadline is the later of the two clocks, and stays there. */
  lemma {:induction false} KeptOnceRead(trace: seq<Event>, s: nat, d: nat, n: nat, now: nat)
    requires Legal(trace) && s < d < n <= |trace| && trace[s].action.Store? && trace[d].action.Read?
             && trace[d].id == trace[s].id
    requires NotReplaced(trace, trace[s].id, s + 1, n) && NotRead(trace, trace[s].id, s + 1, d)
    requires trace[d].now < trace[s].now + trace[s].action.ttl && trace[n - 1].now <= now
    ensures var deadline := Max(trace[s].now + trace[s].action.ttl, trace[d].now + trace[d].action.runway);
            Live(MemoryEntry(trace[..n], trace[s].id), now)
            == if now < deadline then Some(Entry(trace[s].action.envelope, deadline, true)) else None
  {
    hide MemoryAfter, Legal, NotRead;
    MemoryPrefixStep(trace, n - 1);
    if n == d + 1 {
      KeptUntilRead(trace, s, d);
    } else {
      ClockGrows(trace, n - 2, n - 1);
      KeptOnceRead(trace, s, d, n - 1, now);
      KeptOnceRead(trace, s, d, n - 1, trace[n - 1].now);
    }
  }

  /** Once a first read comes too late, nothing is served again until the next store. */
  lemma {:induction false} GoneOnceExpired(trace: seq<Event>, s: nat, n: nat, now: nat)
    requires Legal(trace) && s < n <= |trace| && trace[s].action.Store? && NotReplaced(trace, trace[s].id, s + 1, n)
    requires forall k :: s < k < n && trace[k].id == trace[s].id && trace[k].action.Read? ==>
                                  trace[k].now >= trace[s].now + trace[s].action.ttl
    requires now >= trace[s].now + trace[s].action.ttl
    ensures Live(MemoryEntry(trace[..n], trace[s].id), now) == None
    ensures MemoryEntry(trace[..n], trace[s].id)
            in {None, Some(Entry(trace[s].action.envelope, trace[s].now + trace[s].action.ttl, false))}
  {
    MemoryPrefixStep(trace, n - 1);
    hide MemoryAfter, Legal;
    if n > s + 1 { GoneOnceExpired(trace, s, n - 1, now); }
  }

  lemma AnswerIsLive(trace: seq<Event>, i: nat)
    requires Legal(trace) && i < |trace| && trace[i].action.Read?
    ensures var live := Live(MemoryEntry(trace[..i], trace[i].id), trace[i].now);
            ObjectAnswer(trace, i) == if live.Some? then Some(live.value.envelope) else None
  {
    StoresAgree(trace, i);
    hide Legal, MemoryAfter, ObjectAnswer;
  }

  /** A read of `trace[s].id` at `i`, with no newer store in between. */
  ghost predicate ReadOf(trace: seq<Event>, s: nat, i: nat) {
    && s < i < |trace| && trace[s].action.Store? && trace[i].action.Read? && trace[i].id == trace[s].id
    && NotReplaced(trace, trace[s].id, s + 1, i)
  }

  ghost predicate ServedUntil(trace: seq<Event>, s: nat, i: nat, deadline: nat)
    requires ReadOf(trace, s, i)
  {
    ObjectAnswer(trace, i) == if trace[i].now < deadline then Some(trace[s].action.envelope) else None
  }

  ghost function FilingDeadline(trace: seq<Event>, s: nat): nat
    requires s < |trace| && trace[s].action.Store?
  {
    trace[s].now + trace[s].action.ttl
  }

  /** A first read is served until the filing deadline. */
  lemma FirstReadServed(trace: seq<Event>, s: nat, i: nat)
    requires Legal(trace) && ReadOf(trace, s, i) && NotRead(trace, trace[s].id, s + 1, i)
    ensures ServedUntil(trace, s, i, FilingDeadline(trace, s))
  {
    AnswerIsLive(trace, i);
    hide Legal, ObjectAnswer, MemoryEntry, NotRead, NotReplaced;
    KeptUntilRead(trace, s, i);
  }

  /** Exactly how long an envelope is served after its first read `d`: when that came in time, until the later
      of the filing deadline and the runway from that read; otherwise not at all. So reading never shortens the
      life, only the first read extends it, and the life never exceeds both windows together. */
  lemma LaterReadServed(trace: seq<Event>, s: nat, d: nat, i: nat)
    requires Legal(trace) && ReadOf(trace, s, d) && ReadOf(trace, s, i) && d < i
             && NotRead(trace, trace[s].id, s + 1, d)
    ensures ServedUntil(trace, s, i, LastServed(trace, s, d))
    ensures trace[d].now < FilingDeadline(trace, s)
            && trace[i].now >= FilingDeadline(trace, s) + trace[d].action.runway ==>
      ObjectAnswer(trace, i) == None
  {
    AnswerIsLive(trace, i);
    ClockGrows(trace, i - 1, i);
    ClockGrows(trace, d, i);
    if trace[d].now < FilingDeadline(trace, s) {
      hide ObjectAnswer, MemoryEntry, NotRead, Legal;
      KeptOnceRead(trace, s, d, i, trace[i].now);
    } else {
      hide ObjectAnswer, MemoryEntry;
      forall k | s < k < i && trace[k].id == trace[s].id && trace[k].action.Read?
          ensures trace[k].now >= FilingDeadline(trace, s) {
        ClockGrows(trace, d, k);
      }
      hide NotRead, Legal;
      GoneOnceExpired(trace, s, i, trace[i].now);
    }
  }

  lemma {:induction false} FirstRead(trace: seq<Event>, id: string, a: nat, b: nat) returns (d: nat)
    requires a <= b <= |trace| && !NotRead(trace, id, a, b)
    ensures a <= d < b && trace[d].id == id && trace[d].action.Read? && NotRead(trace, id, a, d)
    decreases b
  {
    if NotRead(trace, id, a, b - 1) {
      d := b - 1;
    } else {
      d := FirstRead(trace, id, a, b - 1);
    }
  }

  /** When an envelope stored at `s` and first read at `d` is last served. */
  ghost function LastServed(trace: seq<Event>, s: nat, d: nat): nat
    requires s < |trace| && d < |trace| && trace[s].action.Store? && trace[d].action.Read?
  {
    if trace[d].now < FilingDeadline(trace, s) then Max(FilingDeadline(trace, s), trace[d].now + trace[d].action.runway)
    else FilingDeadline(trace, s)
  }

  /** Every read of a stored envelope is answered exactly until one deadline: the filing deadline for the first
      read, and for every other the one that first read has fixed. */
  lemma EveryReadServed(trace: seq<Event>, s: nat, i: nat) returns (d: nat)
    requires Legal(trace) && ReadOf(trace, s, i)
    ensures d <= i && ReadOf(trace, s, d) && NotRead(trace, trace[s].id, s + 1, d)
    ensures ServedUntil(trace, s, i, if d == i then FilingDeadline(trace, s) else LastServed(trace, s, d))
  {
    d := FirstRead(trace, trace[s].id, s + 1, i + 1);
    hide Legal, ServedUntil;
    if d == i { FirstReadServed(trace, s, i); } else { LaterReadServed(trace, s, d, i); }
  }
}
