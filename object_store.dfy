/**
 * The S3 bucket the storage Lambda writes to, reduced to the four calls it
 * makes: list_objects_v2 (through its paginator), copy_object, delete_objects
 * and put_object. Every call may raise; which ones do is fixed by a fault
 * schedule, the set of call numbers that fail, so that every pattern of
 * failures the network can produce is one schedule.
 */
module ObjectStore {
  import opened Strings

  type Key = string

  /** An object: its bytes and the Content-Type it was stored with. */
  datatype StoredObject = StoredObject(body: Bytes, contentType: string)

  type Objects = map<Key, StoredObject>

  /** One put_object request of a write action. */
  datatype PutRequest = PutRequest(key: Key, body: Bytes, contentType: string)

  /** A call issued to the store, recorded in the order it was issued. */
  datatype Call =
    | ListCall(prefix: Key)
    | CopyCall(source: Key, target: Key)
    | DeleteCall(keys: seq<Key>)
    | PutCall(key: Key)

  /** The objects whose keys start with `p`. */
  function Within(m: Objects, p: Key): Objects {
    map k | k in m && HasPrefix(k, p) :: m[k]
  }

  /** The objects whose keys do not start with `p`. */
  function Without(m: Objects, p: Key): Objects {
    map k | k in m && !HasPrefix(k, p) :: m[k]
  }

  /** A key under `from` moved under `to`, keeping the rest of the key. */
  function Rebased(k: Key, from: Key, to: Key): (t: Key)
    requires HasPrefix(k, from)
    ensures HasPrefix(t, to) && Origin(t, from, to) == k
  {
    assert k == k[..|from|] + k[|from|..];
    to + k[|from|..]
  }

  /** The key under `from` that `Rebased` moves to `t`. */
  function Origin(t: Key, from: Key, to: Key): (k: Key)
    requires HasPrefix(t, to)
    ensures HasPrefix(k, from)
  {
    from + t[|to|..]
  }

  lemma RebasedInjective(from: Key, to: Key, k1: Key, k2: Key)
    requires HasPrefix(k1, from) && HasPrefix(k2, from)
    requires Rebased(k1, from, to) == Rebased(k2, from, to)
    ensures k1 == k2
  {
  }

  /** The objects under `from`, re-keyed under `to`. */
  function Rebase(m: Objects, from: Key, to: Key): (r: Objects)
    ensures forall k {:trigger Rebased(k, from, to)} :: k in m && HasPrefix(k, from) ==>
      Rebased(k, from, to) in r && r[Rebased(k, from, to)] == m[k]
    ensures forall t :: t in r ==>
      HasPrefix(t, to) && Origin(t, from, to) in m && r[t] == m[Origin(t, from, to)]
  {
    assert forall k1, k2 ::
      (k1 in m && HasPrefix(k1, from) && k2 in m && HasPrefix(k2, from) &&
       Rebased(k1, from, to) == Rebased(k2, from, to)) ==> k1 == k2
    by {
      forall k1, k2 | k1 in m && HasPrefix(k1, from) && k2 in m && HasPrefix(k2, from) &&
                      Rebased(k1, from, to) == Rebased(k2, from, to)
        ensures k1 == k2
      {
        RebasedInjective(from, to, k1, k2);
      }
    }
    var r := map k | k in m && HasPrefix(k, from) :: Rebased(k, from, to) := m[k];
    assert forall t :: t in r ==> HasPrefix(t, to) && Origin(t, from, to) in m && r[t] == m[Origin(t, from, to)] by {
      forall t | t in r ensures HasPrefix(t, to) && Origin(t, from, to) in m && r[t] == m[Origin(t, from, to)] {
        var k :| k in m && HasPrefix(k, from) && Rebased(k, from, to) == t;
      }
    }
    r
  }

  /** The store after the puts `w`, in order (a later put to a key wins). */
  function ApplyPuts(m: Objects, w: seq<PutRequest>): Objects
    decreases |w|
  {
    if w == [] then m
    else
      var last := w[|w| - 1];
      ApplyPuts(m, w[..|w| - 1])[last.key := StoredObject(last.body, last.contentType)]
  }

  /** The keys the puts `w` write. */
  function PutKeys(w: seq<PutRequest>): set<Key> {
    set i | 0 <= i < |w| :: w[i].key
  }

  /** The puts add their keys to the store and remove none. */
  lemma {:induction false} ApplyPutsKeys(m: Objects, w: seq<PutRequest>)
    ensures ApplyPuts(m, w).Keys == m.Keys + PutKeys(w)
    decreases |w|
  {
    if w != [] {
      var init := w[..|w| - 1];
      ApplyPutsKeys(m, init);
      assert PutKeys(w) == PutKeys(init) + {w[|w| - 1].key} by {
        forall k | k in PutKeys(w) ensures k in PutKeys(init) + {w[|w| - 1].key} {
          var i :| 0 <= i < |w| && w[i].key == k;
          if i < |init| { assert init[i] == w[i]; }
        }
        forall k | k in PutKeys(init) ensures k in PutKeys(w) {
          var i :| 0 <= i < |init| && init[i].key == k;
          assert w[i] == init[i];
        }
      }
    }
  }

  /** The last put to a key decides what the key holds. */
  lemma {:induction false} ApplyPutsLastWins(m: Objects, w: seq<PutRequest>, i: nat)
    requires i < |w|
    requires forall j :: i < j < |w| ==> w[j].key != w[i].key
    ensures w[i].key in ApplyPuts(m, w)
    ensures ApplyPuts(m, w)[w[i].key] == StoredObject(w[i].body, w[i].contentType)
    decreases |w|
  {
    if i < |w| - 1 {
      var init := w[..|w| - 1];
      assert init[i] == w[i];
      assert forall j :: i < j < |init| ==> init[j] == w[j];
      ApplyPutsLastWins(m, init, i);
    }
  }

  /** The calls a prefix of a write action issues. */
  function PutCalls(w: seq<PutRequest>): (r: seq<Call>)
    ensures |r| == |w|
    ensures forall i :: 0 <= i < |w| ==> r[i] == PutCall(w[i].key)
  {
    seq(|w|, i requires 0 <= i < |w| => PutCall(w[i].key))
  }

  /** No delete_objects and no put_object among `calls`. */
  predicate NoDeleteOrPut(calls: seq<Call>) {
    forall i :: 0 <= i < |calls| ==> calls[i].ListCall? || calls[i].CopyCall?
  }

  // ---------------------------------------------------------------------------
  // The fault schedule

  /** None of the calls numbered `lo` up to (not including) `hi` raises. */
  predicate Clean(faults: set<nat>, lo: nat, hi: nat) {
    forall c: nat :: lo <= c < hi ==> c !in faults
  }

  /** The first of the calls numbered `lo` up to `hi` that raises; `hi` when none does. */
  function FirstFault(faults: set<nat>, lo: nat, hi: nat): (f: nat)
    requires lo <= hi
    ensures lo <= f <= hi && Clean(faults, lo, f)
    ensures f < hi ==> f in faults
    decreases hi - lo
  {
    if lo == hi || lo in faults then lo else FirstFault(faults, lo + 1, hi)
  }

  /** Only one call is the first to raise. */
  lemma FirstFaultIs(faults: set<nat>, lo: nat, hi: nat, f: nat)
    requires lo <= f <= hi && Clean(faults, lo, f)
    requires f < hi ==> f in faults
    ensures FirstFault(faults, lo, hi) == f
  {
  }

  /** The call counter after a step of `n` calls from call `lo` that stops at its first call that raises. */
  function StepEnd(faults: set<nat>, lo: nat, n: nat): nat {
    var f := FirstFault(faults, lo, lo + n);
    if f < lo + n then f + 1 else f
  }

  /**
   * A step that makes `n` calls when none raises ran from call `lo` to call
   * `hi`, and `ok` says whether it succeeded: it succeeds exactly when none of
   * its calls raises, and otherwise stops right after the first that does.
   */
  predicate Ran(faults: set<nat>, lo: nat, n: nat, hi: nat, ok: bool) {
    ok == Clean(faults, lo, lo + n) && hi == StepEnd(faults, lo, n)
  }

  /** What `Ran` says about the calls issued: all `n` succeeded, or the last one issued was the first to raise. */
  lemma RanCalls(faults: set<nat>, lo: nat, n: nat, hi: nat, ok: bool)
    requires Ran(faults, lo, n, hi, ok)
    ensures ok ==> hi == lo + n
    ensures !ok ==> lo < hi <= lo + n && Clean(faults, lo, hi - 1) && hi - 1 in faults
    ensures !ok ==> FirstFault(faults, lo, lo + n) == hi - 1
  {
    var f := FirstFault(faults, lo, lo + n);
    if f < lo + n {
      assert f in faults;
    }
  }

  /** A single call succeeds exactly when its number is not in the schedule. */
  lemma RanOne(faults: set<nat>, lo: nat)
    ensures Ran(faults, lo, 1, lo + 1, lo !in faults)
  {
    FirstFaultIs(faults, lo, lo + 1, if lo in faults then lo else lo + 1);
  }

  /** A step that succeeded followed by another is one step of both sizes. */
  lemma RanThen(faults: set<nat>, lo: nat, n1: nat, mid: nat, n2: nat, hi: nat, ok: bool)
    requires Ran(faults, lo, n1, mid, true) && Ran(faults, mid, n2, hi, ok)
    ensures Ran(faults, lo, n1 + n2, hi, ok)
  {
    RanCalls(faults, lo, n1, mid, true);
    var f := FirstFault(faults, mid, mid + n2);
    FirstFaultIs(faults, lo, lo + n1 + n2, f);
  }

  /** A step that failed ends every longer step at the same call. */
  lemma RanStops(faults: set<nat>, lo: nat, n1: nat, hi: nat, n2: nat)
    requires Ran(faults, lo, n1, hi, false)
    ensures Ran(faults, lo, n1 + n2, hi, false)
  {
    RanCalls(faults, lo, n1, hi, false);
    FirstFaultIs(faults, lo, lo + n1 + n2, hi - 1);
  }

  /**
   * One more call after `i` clean ones of an `n`-call step: it either extends
   * the clean run or ends the whole step as failed.
   */
  lemma RanStep(faults: set<nat>, lo: nat, i: nat, mid: nat, ok: bool, n: nat)
    requires i < n && Ran(faults, lo, i, mid, true) && ok == (mid !in faults)
    ensures ok ==> Ran(faults, lo, i + 1, mid + 1, true)
    ensures !ok ==> Ran(faults, lo, n, mid + 1, false)
  {
    RanOne(faults, mid);
    RanThen(faults, lo, i, mid, 1, mid + 1, ok);
    if !ok {
      RanStops(faults, lo, i + 1, mid + 1, n - (i + 1));
    }
  }

  class Store {
    /** The bucket's contents. */
    var objects: Objects
    /** The numbers of the calls that raise. */
    const faults: set<nat>
    /** How many calls have been issued. */
    var calls: nat
    /** Every call issued, in order. */
    ghost var log: seq<Call>

    constructor (initial: Objects, faults: set<nat>)
      ensures objects == initial && this.faults == faults && calls == 0 && log == []
    {
      objects := initial;
      this.faults := faults;
      calls := 0;
      log := [];
    }

    /**
     * A full listing of the keys under `prefix`, every page drained: each
     * key once. S3 lists in key order; the model promises no order.
     */
    method List(prefix: Key) returns (ok: bool, keys: seq<Key>)
      modifies this
      ensures objects == old(objects) && calls == old(calls) + 1
      ensures log == old(log) + [ListCall(prefix)]
      ensures ok == (old(calls) !in faults)
      ensures ok ==> forall k :: k in keys <==> k in objects && HasPrefix(k, prefix)
      ensures ok ==> forall i, j :: 0 <= i < j < |keys| ==> keys[i] != keys[j]
      ensures ok ==> |keys| == |Within(objects, prefix)|
      ensures !ok ==> keys == []
    {
      ok := calls !in faults;
      calls := calls + 1;
      log := log + [ListCall(prefix)];
      keys := [];
      if ok {
        var rest := set k | k in objects && HasPrefix(k, prefix);
        assert rest == Within(objects, prefix).Keys;
        while rest != {}
          invariant rest <= set k | k in objects && HasPrefix(k, prefix)
          invariant |keys| + |rest| == |Within(objects, prefix)|
          invariant forall k :: k in keys ==> k in objects && HasPrefix(k, prefix) && k !in rest
          invariant forall k :: k in objects && HasPrefix(k, prefix) && k !in rest ==> k in keys
          invariant forall i, j :: 0 <= i < j < |keys| ==> keys[i] != keys[j]
          decreases rest
        {
          var k :| k in rest;
          keys := keys + [k];
          rest := rest - {k};
        }
      }
    }

    /** copy_object: the object at `source` is written to `target`; a missing source raises. */
    method Copy(source: Key, target: Key) returns (ok: bool)
      modifies this
      ensures calls == old(calls) + 1
      ensures log == old(log) + [CopyCall(source, target)]
      ensures ok == (old(calls) !in faults && source in old(objects))
      ensures objects == if ok then old(objects)[target := old(objects)[source]] else old(objects)
    {
      ok := calls !in faults && source in objects;
      calls := calls + 1;
      log := log + [CopyCall(source, target)];
      if ok {
        objects := objects[target := objects[source]];
      }
    }

    /** delete_objects: one batch, removed together or not at all. */
    method Delete(keys: seq<Key>) returns (ok: bool)
      modifies this
      ensures calls == old(calls) + 1
      ensures log == old(log) + [DeleteCall(keys)]
      ensures ok == (old(calls) !in faults)
      ensures objects == if ok then old(objects) - (set k | k in keys) else old(objects)
    {
      ok := calls !in faults;
      calls := calls + 1;
      log := log + [DeleteCall(keys)];
      if ok {
        objects := objects - (set k | k in keys);
      }
    }

    /** put_object: `body` stored at `key` with its Content-Type. */
    method Put(request: PutRequest) returns (ok: bool)
      modifies this
      ensures calls == old(calls) + 1
      ensures log == old(log) + [PutCall(request.key)]
      ensures ok == (old(calls) !in faults)
      ensures objects == if ok then old(objects)[request.key := StoredObject(request.body, request.contentType)]
                         else old(objects)
    {
      ok := calls !in faults;
      calls := calls + 1;
      log := log + [PutCall(request.key)];
      if ok {
        objects := objects[request.key := StoredObject(request.body, request.contentType)];
      }
    }
  }
}
