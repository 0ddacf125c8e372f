/** The two evidence stores as objects that rewrite their entries in place. */
module EvidenceObjects {
  import opened Basics
  import opened EvidenceStores

  /** proxy/src/evidence-do.js: three storage keys, written together and deleted together, and one alarm. */
  class EvidenceCache {
    var envelope: Option<string>
    var expiresAt: Option<nat>
    var disclosed: Option<bool>
    var alarmAt: Option<nat>

    ghost predicate Valid()
      reads this
    {
      (envelope.Some? <==> expiresAt.Some?) && (envelope.Some? <==> disclosed.Some?)
    }

    ghost function View(): Object
      requires Valid()
      reads this
    {
      Object(if envelope.Some? then Some(Entry(envelope.value, expiresAt.value, disclosed.value)) else None, alarmAt)
    }

    constructor ()
      ensures Valid() && View() == FRESH
    {
      envelope, expiresAt, disclosed, alarmAt := None, None, None, None;
    }

    method Store(text: string, ttl: nat, now: nat)
      requires Valid()
      modifies this
      ensures Valid() && View() == ObjectStep(old(View()), now, Action.Store(text, ttl)).0
    {
      envelope, expiresAt, disclosed := Some(text), Some(now + ttl), Some(false);
      alarmAt := Some(now + ttl);
    }

    method Read(runway: nat, now: nat) returns (answer: Option<string>)
      requires Valid()
      modifies this`disclosed, this`expiresAt, this`alarmAt
      ensures Valid() && (View(), answer) == ObjectStep(old(View()), now, Action.Read(runway))
    {
      if envelope.None? || expiresAt.None? || expiresAt.value <= now { return None; }
      if disclosed != Some(true) {
        var extended := Max(expiresAt.value, now + runway);
        disclosed, expiresAt := Some(true), Some(extended);
        alarmAt := Some(extended);
      }
      return envelope;
    }

    method Alarm(now: nat)
      requires Valid()
      modifies this
      ensures Valid() && View() == ObjectStep(old(View()), now, Action.Alarm).0
    {
      envelope, expiresAt, disclosed, alarmAt := None, None, None, None;
    }
  }

  /** `createMemoryEvidenceStore` */
  class MemoryEvidenceStore {
    var entries: map<string, Entry>

    constructor ()
      ensures entries == map[]
    {
      entries := map[];
    }

    method Live(id: string, now: nat) returns (entry: Option<Entry>)
      modifies this
      ensures entries
              == if id in old(entries) && old(entries[id]).expiresAt <= now then old(entries) - {id} else old(entries)
      ensures entry == if id in entries then Some(entries[id]) else None
    {
      if id !in entries { return None; }
      if entries[id].expiresAt <= now {
        entries := entries - {id};
        return None;
      }
      return Some(entries[id]);
    }

    method Store(id: string, text: string, ttl: nat, now: nat)
      modifies this
      ensures entries == MemoryStep(old(entries), Event(id, now, Action.Store(text, ttl))).0
    {
      entries := entries[id := Entry(text, now + ttl, false)];
    }

    method Read(id: string, runway: nat, now: nat) returns (answer: Option<string>)
      modifies this
      ensures (entries, answer) == MemoryStep(old(entries), Event(id, now, Action.Read(runway)))
    {
      var entry := Live(id, now);
      if entry.None? { return None; }
      if !entry.value.disclosed {
        entries := entries[id := entry.value.(disclosed := true)];
        entries := entries[id := entries[id].(expiresAt := Max(entry.value.expiresAt, now + runway))];
      }
      assert entries == old(entries)[id := Disclosed(entry.value, now, runway)];
      return Some(entry.value.envelope);
    }
  }
}
