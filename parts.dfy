/**
 * The dictionary of multipart parts the storage Lambda builds and edits: a
 * Python `dict` from part name to raw bytes, whose iteration order is the
 * order in which names were first inserted. Assigning to a name already
 * present keeps its position; deleting a name closes the gap.
 */
module OrderedParts {
  import opened Strings

  datatype Parts = Parts(names: seq<string>, content: map<string, Bytes>) {
    /** Every name once, and exactly the names that have content. */
    predicate Valid() {
      && (forall i, j :: 0 <= i < j < |names| ==> names[i] != names[j])
      && (forall n :: n in content ==> n in names)
      && (forall i :: 0 <= i < |names| ==> names[i] in content)
    }
  }

  /** `{}`. */
  function Empty(): (d: Parts)
    ensures d.Valid() && d.names == [] && d.content == map[]
  {
    Parts([], map[])
  }

  /** `d[k] = v`: a new name goes to the end, an existing one keeps its place. */
  function Set(d: Parts, k: string, v: Bytes): (r: Parts)
    requires d.Valid()
    ensures r.Valid()
    ensures r.content == d.content[k := v]
    ensures k in d.content ==> r.names == d.names
    ensures k !in d.content ==> r.names == d.names + [k]
  {
    if k in d.content then Parts(d.names, d.content[k := v])
    else Parts(d.names + [k], d.content[k := v])
  }

  /** Position of `k` in `names`. */
  function IndexOf(names: seq<string>, k: string): (i: nat)
    requires k in names
    ensures i < |names| && names[i] == k
    ensures forall j :: 0 <= j < i ==> names[j] != k
  {
    if names[0] == k then 0 else 1 + IndexOf(names[1..], k)
  }

  /** `del d[k]`; the key must be present (Python raises `KeyError` otherwise). */
  function Remove(d: Parts, k: string): (r: Parts)
    requires d.Valid() && k in d.content
    ensures r.Valid()
    ensures r.content == d.content - {k}
    ensures r.names == d.names[..IndexOf(d.names, k)] + d.names[IndexOf(d.names, k) + 1..]
  {
    var i := IndexOf(d.names, k);
    var rest := d.names[..i] + d.names[i + 1..];
    DropAt(d.names, i, rest);
    RemovedValid(d, k, rest);
    Parts(rest, d.content - {k})
  }

  lemma RemovedValid(d: Parts, k: string, rest: seq<string>)
    requires d.Valid()
    requires forall a, b :: 0 <= a < b < |rest| ==> rest[a] != rest[b]
    requires forall n :: n in rest <==> n in d.names && n != k
    ensures Parts(rest, d.content - {k}).Valid()
  {
    assert forall a :: 0 <= a < |rest| ==> rest[a] in rest;
  }

  /** Dropping position `i` from a list of distinct names drops that name and only it. */
  lemma DropAt(names: seq<string>, i: nat, rest: seq<string>)
    requires i < |names| && rest == names[..i] + names[i + 1..]
    requires forall a, b :: 0 <= a < b < |names| ==> names[a] != names[b]
    ensures forall a, b :: 0 <= a < b < |rest| ==> rest[a] != rest[b]
    ensures forall n :: n in rest <==> n in names && n != names[i]
  {
    assert |rest| == |names| - 1;
    assert forall a :: 0 <= a < |rest| ==> rest[a] == names[if a < i then a else a + 1];
    forall n | n in names && n != names[i] ensures n in rest {
      var a :| 0 <= a < |names| && names[a] == n;
      if a < i { assert rest[a] == n; } else { assert rest[a - 1] == n; }
    }
  }

  /** Appending a name does not move an earlier one. */
  lemma IndexOfAppend(names: seq<string>, k: string, x: string)
    requires k in names
    ensures IndexOf(names + [x], k) == IndexOf(names, k)
  {
    var i, j := IndexOf(names, k), IndexOf(names + [x], k);
    assert (names + [x])[i] == k;
    assert j <= i;
    assert names[j] == (names + [x])[j];
  }
}
