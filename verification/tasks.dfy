/**
 * Task records and the two lookups the route handlers of server.js run over
 * the in-memory array `tarefas`: `find` (first record whose id matches) and
 * `filter` (every record whose id does not match). Both are pure; the store
 * in store.dfy calls them.
 */
module Tasks {

  datatype Option<T> = None | Some(value: T)

  /** A task record `{ id, texto }`. */
  datatype Task = Task(id: int, texto: string)

  /**
   * JavaScript truthiness of the `texto` field taken from a request body:
   * a missing field (None) and the empty string are falsy, any other string is truthy.
   */
  predicate Truthy(texto: Option<string>): (b: bool)
    ensures b <==> texto != None && texto != Some("")
  {
    match texto
    case None => false
    case Some(s) => s != ""
  }

  /** Some record of `ts` carries `id`. */
  predicate HasId(ts: seq<Task>, id: int)
  {
    exists i :: 0 <= i < |ts| && ts[i].id == id
  }

  /** No two records of `ts` share an id. */
  predicate IdsDistinct(ts: seq<Task>)
  {
    forall i, j :: 0 <= i < j < |ts| ==> ts[i].id != ts[j].id
  }

  /** Every record of `ts` has a non-empty text. */
  predicate TextsNonEmpty(ts: seq<Task>)
  {
    forall i :: 0 <= i < |ts| ==> ts[i].texto != ""
  }

  /**
   * `ts.find(t => t.id == id)`, giving the position of the record found
   * rather than the record, so that the store can update it in place.
   * None is "not found"; a found record is an object and so never falsy.
   */
  function FindFirst(ts: seq<Task>, id: int): (r: Option<nat>)
    ensures r.None? <==> !HasId(ts, id)
    ensures r.Some? ==> r.value < |ts| && ts[r.value].id == id
    ensures r.Some? ==> forall j :: 0 <= j < r.value ==> ts[j].id != id
  {
    if |ts| == 0 then None
    else if ts[0].id == id then Some(0)
    else
      match FindFirst(ts[1..], id)
      case None =>
        assert forall i :: 1 <= i < |ts| ==> ts[i] == ts[1..][i - 1];
        None
      case Some(k) =>
        assert forall j :: 1 <= j < k + 1 ==> ts[j] == ts[1..][j - 1];
        Some(k + 1)
  }

  /** The ids of `ts`, position by position. */
  function Ids(ts: seq<Task>): seq<int>
  {
    seq(|ts|, i requires 0 <= i < |ts| => ts[i].id)
  }

  /** The number of records of `ts` that carry `id`. */
  function CountId(ts: seq<Task>, id: int): (n: nat)
    ensures n <= |ts|
    ensures n == 0 <==> !HasId(ts, id)
  {
    if |ts| == 0 then 0
    else
      var rest := CountId(ts[1..], id);
      assert forall i :: 1 <= i < |ts| ==> ts[i] == ts[1..][i - 1];
      assert HasId(ts[1..], id) ==> HasId(ts, id) by {
        if HasId(ts[1..], id) {
          var i :| 0 <= i < |ts[1..]| && ts[1..][i].id == id;
          assert ts[i + 1].id == id;
        }
      }
      (if ts[0].id == id then 1 else 0) + rest
  }

  /** `CountId` is the multiplicity of `id` among the ids of `ts`. */
  lemma {:induction false} CountIdMultiplicity(ts: seq<Task>, id: int)
    ensures CountId(ts, id) == multiset(Ids(ts))[id]
  {
    if |ts| > 0 {
      CountIdMultiplicity(ts[1..], id);
      assert Ids(ts) == [ts[0].id] + Ids(ts[1..]);
    }
  }

  /**
   * `ts.filter(t => t.id != id)`: the records whose id differs from `id`,
   * in their original order.
   */
  function RemoveId(ts: seq<Task>, id: int): (r: seq<Task>)
    ensures |r| <= |ts|
    ensures !HasId(r, id)
  {
    if |ts| == 0 then []
    else
      assert ts == [ts[0]] + ts[1..];
      if ts[0].id == id then RemoveId(ts[1..], id)
      else [ts[0]] + RemoveId(ts[1..], id)
  }

  /** `filter` keeps a record iff it was present and its id differs from `id`. */
  lemma {:induction false} RemoveIdMembers(ts: seq<Task>, id: int)
    ensures forall t :: t in RemoveId(ts, id) <==> t in ts && t.id != id
  {
    if |ts| > 0 {
      RemoveIdMembers(ts[1..], id);
      assert ts == [ts[0]] + ts[1..];
    }
  }

  /** `filter` shortens the array by exactly the number of records carrying `id`. */
  lemma {:induction false} RemoveIdLength(ts: seq<Task>, id: int)
    ensures |RemoveId(ts, id)| == |ts| - CountId(ts, id)
  {
    if |ts| > 0 {
      RemoveIdLength(ts[1..], id);
    }
  }

  /** Filtering out an id that no record carries returns the array as it was. */
  lemma {:induction false} RemoveIdAbsent(ts: seq<Task>, id: int)
    requires !HasId(ts, id)
    ensures RemoveId(ts, id) == ts
  {
    if |ts| > 0 {
      assert ts[0].id != id;
      NoIdInSlice(ts, id, 1, |ts|);
      RemoveIdAbsent(ts[1..], id);
      assert ts == [ts[0]] + ts[1..];
    }
  }

  /**
   * Filtering distributes over concatenation: every kept record stays in the
   * same relative order as in the input.
   */
  lemma {:induction false} RemoveIdAppend(a: seq<Task>, b: seq<Task>, id: int)
    ensures RemoveId(a + b, id) == RemoveId(a, id) + RemoveId(b, id)
  {
    if |a| == 0 {
      assert a + b == b;
    } else {
      assert (a + b)[1..] == a[1..] + b;
      assert (a + b)[0] == a[0];
      RemoveIdAppend(a[1..], b, id);
    }
  }

  /** Filtering keeps ids distinct. */
  lemma {:induction false} RemoveIdKeepsDistinct(ts: seq<Task>, id: int)
    requires IdsDistinct(ts)
    ensures IdsDistinct(RemoveId(ts, id))
  {
    if |ts| > 0 {
      var rest := RemoveId(ts[1..], id);
      RemoveIdKeepsDistinct(ts[1..], id);
      if ts[0].id != id {
        var r := [ts[0]] + rest;
        RemoveIdMembers(ts[1..], id);
        forall i, j | 0 <= i < j < |r| ensures r[i].id != r[j].id {
          if i == 0 {
            assert r[j] == rest[j - 1];
            assert rest[j - 1] in ts[1..];
            var m :| 0 <= m < |ts[1..]| && ts[1..][m] == rest[j - 1];
            assert ts[0].id != ts[m + 1].id;
          } else {
            assert r[i] == rest[i - 1] && r[j] == rest[j - 1];
          }
        }
        assert RemoveId(ts, id) == r;
      }
    }
  }

  /** With distinct ids, a present id is carried by exactly one record. */
  lemma {:induction false} CountIdDistinct(ts: seq<Task>, id: int)
    requires IdsDistinct(ts) && HasId(ts, id)
    ensures CountId(ts, id) == 1
  {
    if ts[0].id == id {
      NoIdInSlice(ts, id, 1, |ts|);
    } else {
      var i :| 0 <= i < |ts| && ts[i].id == id;
      assert ts[1..][i - 1].id == id;
      CountIdDistinct(ts[1..], id);
    }
  }

  /** A slice of `ts` whose positions all miss `id` does not carry `id`. */
  lemma NoIdInSlice(ts: seq<Task>, id: int, lo: nat, hi: nat)
    requires lo <= hi <= |ts|
    requires forall i :: lo <= i < hi ==> ts[i].id != id
    ensures !HasId(ts[lo..hi], id)
  {
    forall i | 0 <= i < hi - lo ensures ts[lo..hi][i].id != id {
      assert ts[lo..hi][i] == ts[lo + i];
    }
  }

  /** When exactly position `k` carries `id`, filtering removes that one record. */
  lemma RemoveIdSingle(ts: seq<Task>, id: int, k: nat)
    requires k < |ts| && ts[k].id == id
    requires forall i :: 0 <= i < |ts| && i != k ==> ts[i].id != id
    ensures RemoveId(ts, id) == ts[..k] + ts[k + 1..]
  {
    var before, from, after := ts[..k], ts[k..], ts[k + 1..];
    NoIdInSlice(ts, id, 0, k);
    assert ts[0..k] == before;
    NoIdInSlice(ts, id, k + 1, |ts|);
    assert ts[k + 1..|ts|] == after;
    calc {
      RemoveId(ts, id);
      { assert ts == before + from; }
      RemoveId(before + from, id);
      { RemoveIdAppend(before, from, id); }
      RemoveId(before, id) + RemoveId(from, id);
      { RemoveIdAbsent(before, id); }
      before + RemoveId(from, id);
      { assert from[0].id == id && from[1..] == after; }
      before + RemoveId(after, id);
      { RemoveIdAbsent(after, id); }
      before + after;
    }
  }

  /**
   * With distinct ids, filtering out a present id removes exactly the record
   * `find` returns and keeps every other record in its place.
   */
  lemma RemoveIdDistinct(ts: seq<Task>, id: int)
    requires IdsDistinct(ts) && HasId(ts, id)
    ensures FindFirst(ts, id).Some?
    ensures var k := FindFirst(ts, id).value;
            RemoveId(ts, id) == ts[..k] + ts[k + 1..]
  {
    var k := FindFirst(ts, id).value;
    forall i | 0 <= i < |ts| && i != k ensures ts[i].id != id {
      if i < k {
        assert ts[i].id != ts[k].id;
      } else {
        assert ts[k].id != ts[i].id;
      }
    }
    RemoveIdSingle(ts, id, k);
  }

  /** Appending a record whose id is not yet present keeps ids distinct. */
  lemma AppendFreshKeepsDistinct(ts: seq<Task>, t: Task)
    requires IdsDistinct(ts) && !HasId(ts, t.id)
    ensures IdsDistinct(ts + [t])
  {
    var s := ts + [t];
    forall i, j | 0 <= i < j < |s| ensures s[i].id != s[j].id {
      if j == |ts| {
        assert s[i] == ts[i];
      } else {
        assert s[i] == ts[i] && s[j] == ts[j];
      }
    }
  }
}
