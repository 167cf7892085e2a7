/** The expiring cache behind a lock of art/rhevm_api/utils/name2ip.py: `LookUpIpByEntityName.look_up` and `reset_cache`. Both
  hold the class-wide lock from beginning to end, so a run of any number of threads is a sequence of whole calls; the clock
  is read inside the lock. */
module NameLookup {
  import opened Helpers

  /** What `get_ip` would do at the time of a call. */
  datatype Answer = Ip(ip: string) | NoIp | Raises

  /** One call. `expiry` is the `cache_exp` of the instance that looks up. A reset deletes the keys that its pattern matches. */
  datatype Call = LookUp(entity: string, name: string, now: int, expiry: int, answer: Answer) | Reset(matches: string -> bool)

  datatype Record = Record(ip: string, exp: int)

  type Cache = map<string, Record>

  /** What the caller gets: the `ip` of the record, `IpLookUpError`, or the exception of `get_ip`. */
  datatype Outcome = Returned(ip: Option<string>) | LookUpError | Propagated

  /** `"%s-%s" % (entity, name)`. */
  function Key(entity: string, name: string): string { entity + "-" + name }

  /** The record is missing or expired; the stand-in for a missing one has `exp` 0. */
  predicate Expired(cache: Cache, key: string, now: int) { (if key in cache then cache[key].exp else 0) < now }

  function Result(cache: Cache, c: Call): Outcome
    requires c.LookUp?
  {
    var key := Key(c.entity, c.name);
    if !Expired(cache, key, c.now) then Returned(if key in cache then Some(cache[key].ip) else None)
    else
      match c.answer
      case Ip(ip) => Returned(Some(ip))
      case NoIp => LookUpError
      case Raises => Propagated
  }

  /** The call asks `get_ip` and stores what it says. */
  predicate Stores(cache: Cache, c: Call) { c.LookUp? && Expired(cache, Key(c.entity, c.name), c.now) && c.answer.Ip? }

  function After(cache: Cache, c: Call): Cache {
    match c
    case LookUp(entity, name, now, expiry, answer) =>
      if Stores(cache, c) then cache[Key(entity, name) := Record(answer.ip, now + expiry)] else cache
    case Reset(matches) => map k | k in cache && !matches(k) :: cache[k]
  }

  function Run(calls: seq<Call>): Cache {
    if calls == [] then map[] else After(Run(calls[..|calls| - 1]), calls[|calls| - 1])
  }

  // ---------- The code ----------

  /** The class with its cache and the lock of `ThreadSafeDict`. */
  class IpCache {
    var records: map<string, Record>
    var locked: bool
    ghost var calls: seq<Call>

    ghost predicate Valid()
      reads this
    {
      !locked && records == Run(calls)
    }

    constructor ()
      ensures Valid() && calls == []
    {
      records, locked, calls := map[], false, [];
    }

    /** `look_up`, with the lock released on every way out. */
    method LookUpName(entity: string, name: string, now: int, expiry: int, answer: Answer) returns (r: Outcome)
      requires Valid()
      modifies this
      ensures Valid() && calls == old(calls) + [LookUp(entity, name, now, expiry, answer)]
      ensures r == Result(old(records), LookUp(entity, name, now, expiry, answer))
      ensures !r.Returned? ==> records == old(records)
    {
      ghost var c := LookUp(entity, name, now, expiry, answer);
      calls := calls + [c];
      assert calls[..|calls| - 1] == old(calls);
      var key := Key(entity, name);
      locked := true;
      var ip, exp := None, 0;
      if key in records {
        ip, exp := Some(records[key].ip), records[key].exp;
      }
      if exp < now {
        match answer {
          case Raises =>
            locked := false;
            return Propagated;
          case NoIp =>
            locked := false;
            return LookUpError;
          case Ip(found) =>
            ip := Some(found);
            records := records[key := Record(found, now + expiry)];
        }
      }
      locked := false;
      r := Returned(ip);
    }

    /** `reset_cache`: the matching keys are collected first and then deleted one by one. */
    method ResetCache(matches: string -> bool)
      requires Valid()
      modifies this
      ensures Valid() && calls == old(calls) + [Reset(matches)]
      ensures forall k :: k in records <==> k in old(records) && !matches(k)
      ensures forall k :: k in records ==> records[k] == old(records)[k]
    {
      calls := calls + [Reset(matches)];
      assert calls[..|calls| - 1] == old(calls);
      locked := true;
      var elms := set k | k in records && matches(k);
      while elms != {}
        invariant elms <= records.Keys && forall k :: k in elms ==> matches(k)
        invariant forall k :: k in records <==> k in old(records) && (matches(k) ==> k in elms)
        invariant forall k :: k in records ==> records[k] == old(records)[k]
        invariant locked && calls == old(calls) + [Reset(matches)]
      {
        var k :| k in elms;
        records := records - {k};
        elms := elms - {k};
      }
      locked := false;
      assert records == After(old(records), Reset(matches));
    }
  }

  // ---------- Runs ----------

  /** The clock is positive and does not go back. */
  ghost predicate ClockOk(calls: seq<Call>) {
    && (forall i :: 0 <= i < |calls| && calls[i].LookUp? ==> calls[i].now > 0)
    && (forall i, j :: 0 <= i <= j < |calls| && calls[i].LookUp? && calls[j].LookUp? ==> calls[i].now <= calls[j].now)
  }

  predicate For(c: Call, key: string) { c.LookUp? && Key(c.entity, c.name) == key }

  /** Call `j` stored its answer under `key`, and nothing since up to `n` has deleted that key. */
  ghost predicate StoredBy(calls: seq<Call>, key: string, j: int, n: int) {
    && 0 <= j < n <= |calls| && For(calls[j], key) && Stores(Run(calls[..j]), calls[j])
    && forall i :: j < i < n && calls[i].Reset? ==> !calls[i].matches(key)
  }

  /** Every record comes from a call for its key that asked `get_ip`. */
  lemma {:induction false} RecordIsStored(calls: seq<Call>, key: string) returns (j: int)
    requires key in Run(calls)
    ensures StoredBy(calls, key, j, |calls|)
    ensures Run(calls)[key] == Record(calls[j].answer.ip, calls[j].now + calls[j].expiry)
    ensures forall i :: j < i < |calls| && For(calls[i], key) ==> !Stores(Run(calls[..i]), calls[i])
  {
    var n := |calls| - 1;
    var init := calls[..n];
    if For(calls[n], key) && Stores(Run(init), calls[n]) {
      j := n;
    } else {
      j := RecordIsStored(init, key);
      assert forall i :: 0 <= i <= n ==> init[..i] == calls[..i];
      assert forall i :: 0 <= i < n ==> init[i] == calls[i];
    }
  }

  /** Every address that is returned is one that `get_ip` gave for the same key, no longer ago than the instance that stored it
    allows, and not deleted since; the empty stand-in is never returned. */
  lemma ReturnedIsFresh(calls: seq<Call>, i: int) returns (j: int)
    requires ClockOk(calls) && 0 <= i < |calls| && calls[i].LookUp? && Result(Run(calls[..i]), calls[i]).Returned?
    ensures 0 <= j <= i && For(calls[j], Key(calls[i].entity, calls[i].name))
    ensures Stores(Run(calls[..j]), calls[j]) && Result(Run(calls[..i]), calls[i]) == Returned(Some(calls[j].answer.ip))
    ensures j < i ==> 0 <= calls[i].now - calls[j].now <= calls[j].expiry
    ensures forall k :: j < k < i && calls[k].Reset? ==> !calls[k].matches(Key(calls[i].entity, calls[i].name))
  {
    var before, key := calls[..i], Key(calls[i].entity, calls[i].name);
    if Expired(Run(before), key, calls[i].now) {
      j := i;
    } else {
      j := RecordIsStored(before, key);
      assert before[..j] == calls[..j] && before[j] == calls[j];
      assert forall k :: 0 <= k < i ==> before[k] == calls[k];
    }
  }

  /** The other way round: an address stored and not deleted is returned, without asking again, until it expires. */
  lemma {:induction false} StoredIsReturned(calls: seq<Call>, j: int, n: int, key: string)
    requires StoredBy(calls, key, j, n)
    requires forall i :: j < i < n && For(calls[i], key) ==> calls[i].now <= calls[j].now + calls[j].expiry
    ensures key in Run(calls[..n]) && Run(calls[..n])[key] == Record(calls[j].answer.ip, calls[j].now + calls[j].expiry)
    decreases n
  {
    assert calls[..n][..n - 1] == calls[..n - 1];
    if n - 1 > j {
      StoredIsReturned(calls, j, n - 1, key);
    }
  }

  lemma StoredUntilExpiry(calls: seq<Call>, j: int, i: int)
    requires ClockOk(calls) && 0 <= j < i < |calls| && calls[i].LookUp?
    requires StoredBy(calls, Key(calls[i].entity, calls[i].name), j, i)
    requires calls[i].now <= calls[j].now + calls[j].expiry
    ensures Result(Run(calls[..i]), calls[i]) == Returned(Some(calls[j].answer.ip)) && !Stores(Run(calls[..i]), calls[i])
  {
    StoredIsReturned(calls, j, i, Key(calls[i].entity, calls[i].name));
  }

  /** When a call asks, the outcome is the answer: an address, `IpLookUpError` for none, or the exception of `get_ip`. */
  lemma AskedOutcome(cache: Cache, c: Call)
    requires c.LookUp? && (var key := c.entity + "-" + c.name; if key in cache then cache[key].exp < c.now else 0 < c.now)
    ensures c.answer.Ip? ==> Result(cache, c) == Returned(Some(c.answer.ip))
    ensures c.answer.NoIp? <==> Result(cache, c) == LookUpError
    ensures c.answer.Raises? <==> Result(cache, c) == Propagated
  {
  }

  /** The positive clock is needed: at time zero or before, the stand-in counts as a record and no address comes back. */
  lemma StandInExactly(cache: Cache, c: Call)
    requires c.LookUp?
    ensures Result(cache, c) == Returned(None) <==> Key(c.entity, c.name) !in cache && c.now <= 0
  {
  }

  // ---------- Keys ----------

  /** The entities of the resolvers that the module has; `name2ip` accepts no other. */
  const ENTITIES: set<string> := {"vms", "hosts"}

  /** One entity is the other, or the other one starts with it and a dash. */
  predicate CanCollide(a: string, b: string) { a == b || a + "-" <= b || b + "-" <= a }

  /** Two entities can have a key in common exactly when they are the same or one starts with the other and a dash. */
  lemma SharedKeyExactly(a: string, x: string)
    ensures (exists b, y :: Key(a, b) == Key(x, y)) <==> CanCollide(a, x)
  {
    if b, y :| Key(a, b) == Key(x, y) {
      if |a| <= |x| {
        SharedKeyMeansPrefix(a, b, x, y);
      } else {
        SharedKeyMeansPrefix(x, y, a, b);
      }
    }
    if CanCollide(a, x) {
      if a == x {
        assert Key(a, "") == Key(x, "");
      } else if a + "-" <= x {
        PrefixMeansSharedKey(a, x);
      } else {
        PrefixMeansSharedKey(x, a);
      }
    }
  }

  lemma SharedKeyMeansPrefix(a: string, b: string, x: string, y: string)
    requires Key(a, b) == Key(x, y) && |a| <= |x|
    ensures a == x || a + "-" <= x
  {
    var s := Key(a, b);
    assert a == s[..|a|] && s[|a|] == '-';
    assert x == Key(x, y)[..|x|];
    if |a| < |x| {
      assert x == s[..|x|] && s[..|a| + 1] == a + "-";
    }
  }

  lemma PrefixMeansSharedKey(a: string, x: string)
    requires a + "-" <= x
    ensures exists b, y :: Key(a, b) == Key(x, y)
  {
    var b := x[|a| + 1..] + "-";
    assert x == (a + "-") + x[|a| + 1..];
    assert Key(a, b) == Key(x, "");
  }

  /** Within one entity the key determines the name. */
  lemma SameEntitySameName(a: string, b: string, y: string)
    ensures Key(a, b) == Key(a, y) <==> b == y
  {
    assert Key(a, b)[|a| + 1..] == b && Key(a, y)[|a| + 1..] == y;
  }

  /** For the entities that the module has, a key means one entity and one name. */
  lemma KeyIsInjective(a: string, b: string, x: string, y: string)
    requires a in ENTITIES && x in ENTITIES
    ensures Key(a, b) == Key(x, y) <==> a == x && b == y
  {
    SharedKeyExactly(a, x);
    SameEntitySameName(a, b, y);
    assert '-' !in "vms" && '-' !in "hosts";
    assert ("vms" + "-")[3] == '-' && ("hosts" + "-")[5] == '-';
    assert a != x ==> !CanCollide(a, x);
  }

  /** So an address that is returned was given for that very entity and name. */
  lemma ReturnedIsOwn(calls: seq<Call>, i: nat) returns (j: int)
    requires ClockOk(calls) && forall k :: 0 <= k < |calls| && calls[k].LookUp? ==> calls[k].entity in ENTITIES
    requires i < |calls| && calls[i].LookUp? && Result(Run(calls[..i]), calls[i]).Returned?
    ensures 0 <= j <= i && calls[j].LookUp? && calls[j].entity == calls[i].entity && calls[j].name == calls[i].name
    ensures calls[j].answer.Ip? && Result(Run(calls[..i]), calls[i]) == Returned(Some(calls[j].answer.ip))
    ensures j < i ==> 0 <= calls[i].now - calls[j].now <= calls[j].expiry
  {
    j := ReturnedIsFresh(calls, i);
    KeyIsInjective(calls[j].entity, calls[j].name, calls[i].entity, calls[i].name);
  }

  /** A resolver for an entity that continues another one with a dash would get the other one's addresses. */
  lemma FurtherResolverCollides(a: string, x: string, now: int, ip: string) returns (b: string, y: string)
    requires now > 0 && a + "-" <= x
    ensures var first, second := LookUp(a, b, now, 600, Ip(ip)), LookUp(x, y, now, 600, NoIp);
            Result(Run([first]), second) == Returned(Some(ip))
  {
    PrefixMeansSharedKey(a, x);
    b, y :| Key(a, b) == Key(x, y);
    var first := LookUp(a, b, now, 600, Ip(ip));
    assert [first][..0] == [] && Run([first]) == After(map[], first);
  }
}
