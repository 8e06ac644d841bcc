/**
 * The cache's one shared structure: a map from key to (value, optional
 * absolute expiry). Reads expire lazily; the reaper sweeps.
 * Time is an integer `now` passed in by the caller.
 */
module Storage {
  import opened Wrappers

  /** A stored record: the value and, if it has a TTL, the instant after which it is gone. */
  datatype Entry = Entry(value: string, expiresAt: Option<int>)

  /** Strictly past its expiry instant; an entry is still live at exactly `expiresAt`. */
  predicate Expired(e: Entry, now: int)
  {
    e.expiresAt.Some? && now > e.expiresAt.value
  }

  /** What a read of `key` at `now` answers, and the map it leaves behind. */
  function Read(m: map<string, Entry>, key: string, now: int): (Option<string>, map<string, Entry>)
  {
    if key !in m then (None, m)
    else if Expired(m[key], now) then (None, m - {key})
    else (Some(m[key].value), m)
  }

  /** The map left after one reaper pass at `now`. */
  function Swept(m: map<string, Entry>, now: int): map<string, Entry>
  {
    map k | k in m && !Expired(m[k], now) :: m[k]
  }

  /** A read never answers with an expired or foreign value, and removes at most its own key. */
  lemma ReadAnswersLiveOnly(m: map<string, Entry>, key: string, now: int)
    ensures var (r, m') := Read(m, key, now);
      && (r.Some? <==> key in m && !Expired(m[key], now))
      && (r.Some? ==> r.value == m[key].value)
      && (m' == m <==> !(key in m && Expired(m[key], now)))
      && m'.Keys == m.Keys - (if key in m && Expired(m[key], now) then {key} else {})
      && forall k :: k in m' ==> m'[k] == m[k]
  {
    var (r, m') := Read(m, key, now);
    if key in m && Expired(m[key], now) {
      assert key !in m';
    }
  }

  /** A sweep removes exactly the expired entries and keeps every other one as it was. */
  lemma SweptExactly(m: map<string, Entry>, now: int)
    ensures forall k :: k in Swept(m, now) <==> k in m && !Expired(m[k], now)
    ensures forall k :: k in Swept(m, now) ==> Swept(m, now)[k] == m[k]
  {
  }

  /** Sweeping twice at the same instant is sweeping once. */
  lemma SweepIdempotent(m: map<string, Entry>, now: int)
    ensures Swept(Swept(m, now), now) == Swept(m, now)
  {
  }

  /** A later sweep subsumes an earlier one: expiry is monotone in time. */
  lemma SweepLaterSubsumes(m: map<string, Entry>, t1: int, t2: int)
    requires t1 <= t2
    ensures Swept(Swept(m, t1), t2) == Swept(m, t2)
  {
    var a := Swept(Swept(m, t1), t2);
    var b := Swept(m, t2);
    assert forall k :: k in m && Expired(m[k], t1) ==> Expired(m[k], t2);
    assert a.Keys == b.Keys;
  }

  /**
   * The reaper is invisible to clients: reading at `now` gives the same
   * answer with or without a sweep at `now` first, and sweeping after the
   * read leaves the same map as reading after the sweep.
   */
  lemma SweepCommutesWithRead(m: map<string, Entry>, key: string, now: int)
    ensures Read(Swept(m, now), key, now).0 == Read(m, key, now).0
    ensures Read(Swept(m, now), key, now).1 == Swept(Read(m, key, now).1, now)
  {
    if key in m && Expired(m[key], now) {
      assert Swept(m - {key}, now) == Swept(m, now);
    }
  }

  /** The shared key/value table. Every method runs as one atomic step. */
  class Store {
    var data: map<string, Entry>

    constructor ()
      ensures data == map[]
    {
      data := map[];
    }

    /** Writes `key`, replacing any previous entry whole. */
    method Set(key: string, value: string, expiresAt: Option<int>)
      modifies this
      ensures data == old(data)[key := Entry(value, expiresAt)]
    {
      data := data[key := Entry(value, expiresAt)];
    }

    /** Looks `key` up at `now`; an expired entry is deleted and reported absent. */
    method Get(key: string, now: int) returns (r: Option<string>)
      modifies this
      ensures (r, data) == Read(old(data), key, now)
      ensures r.Some? ==> key in old(data) && !Expired(old(data)[key], now) && r.value == old(data)[key].value
      ensures data == old(data) || data == old(data) - {key}
    {
      if key !in data {
        return None;
      }
      var e := data[key];
      if e.expiresAt.Some? && now > e.expiresAt.value {
        data := data - {key};
        return None;
      }
      return Some(e.value);
    }

    /** One reaper pass: walks a snapshot of the entries and deletes every expired one. */
    method Sweep(now: int)
      modifies this
      ensures data == Swept(old(data), now)
    {
      var snapshot := data;
      var pending := snapshot.Keys;
      while pending != {}
        invariant pending <= snapshot.Keys
        invariant forall k :: k in data <==> k in snapshot && (k in pending || !Expired(snapshot[k], now))
        invariant forall k :: k in data ==> data[k] == snapshot[k]
        decreases pending
      {
        var k :| k in pending;
        var e := snapshot[k];
        if e.expiresAt.Some? && now > e.expiresAt.value {
          data := data - {k};
        }
        pending := pending - {k};
      }
      assert data.Keys == Swept(snapshot, now).Keys;
    }
  }
}
