/**
 * The in-memory customer list and the three ways the component rebuilds it after
 * a server outcome: append the created record (spread), replace by `id` (`map`)
 * and remove by `id` (`filter`). Identifiers are compared with `===`, which on the
 * primitive values of a record is equality of `Option<Value>` (two missing ids,
 * both `undefined`, compare equal).
 */
module ClienteList {
  import opened Records

  /** `data.filter(cliente => cliente.id !== id)` */
  function RemoveById(data: seq<Record>, id: Option<Value>): (r: seq<Record>)
    ensures |r| <= |data|
    ensures forall x :: x in r ==> x in data && IdOf(x) != id
    ensures forall x :: x in data && IdOf(x) != id ==> x in r
  {
    if data == [] then []
    else if IdOf(data[0]) == id then RemoveById(data[1..], id)
    else [data[0]] + RemoveById(data[1..], id)
  }

  /** `data.map(cliente => cliente.id === id ? c : cliente)` */
  function ReplaceById(data: seq<Record>, id: Option<Value>, c: Record): (r: seq<Record>)
    ensures |r| == |data|
    ensures forall i :: 0 <= i < |data| ==> r[i] == (if IdOf(data[i]) == id then c else data[i])
  {
    if data == [] then []
    else [if IdOf(data[0]) == id then c else data[0]] + ReplaceById(data[1..], id, c)
  }

  /** The number of entries whose `id` is `id`. */
  function CountId(data: seq<Record>, id: Option<Value>): (n: nat)
    ensures n <= |data|
  {
    if data == [] then 0
    else (if IdOf(data[0]) == id then 1 else 0) + CountId(data[1..], id)
  }

  /** No two entries share an identifier. */
  predicate UniqueIds(data: seq<Record>) {
    forall i, j :: 0 <= i < j < |data| ==> IdOf(data[i]) != IdOf(data[j])
  }

  // ---------------------------------------------------------------------------
  // Removal by id

  /** Removal works entry by entry and keeps the survivors in their relative
      order: it distributes over concatenation. */
  lemma {:induction false} RemoveByIdConcat(a: seq<Record>, b: seq<Record>, id: Option<Value>)
    ensures RemoveById(a + b, id) == RemoveById(a, id) + RemoveById(b, id)
  {
    if a == [] {
      assert a + b == b;
    } else {
      var ab := a + b;
      assert ab[0] == a[0] && ab[1..] == a[1..] + b;
      RemoveByIdConcat(a[1..], b, id);
    }
  }

  /** Exactly the matching entries go: the result is the input less its
      `CountId` matches. */
  lemma {:induction false} RemoveByIdLength(data: seq<Record>, id: Option<Value>)
    ensures |RemoveById(data, id)| == |data| - CountId(data, id)
  {
    if data != [] {
      RemoveByIdLength(data[1..], id);
    }
  }

  /** Each record keeps its multiplicity unless its `id` matches, in which case
      every copy is gone. */
  lemma {:induction false} RemoveByIdMultiset(data: seq<Record>, id: Option<Value>, x: Record)
    ensures multiset(RemoveById(data, id))[x] == if IdOf(x) == id then 0 else multiset(data)[x]
  {
    if data != [] {
      RemoveByIdMultiset(data[1..], id, x);
      assert data == [data[0]] + data[1..];
    }
  }

  /** If nothing matches, the list is returned as it was. */
  lemma {:induction false} RemoveByIdNoMatch(data: seq<Record>, id: Option<Value>)
    requires forall x :: x in data ==> IdOf(x) != id
    ensures RemoveById(data, id) == data
  {
    if data != [] {
      assert data[0] in data;
      assert forall x :: x in data[1..] ==> x in data;
      RemoveByIdNoMatch(data[1..], id);
      assert data == [data[0]] + data[1..];
    }
  }

  /** Deleting the same id twice is the same as deleting it once. */
  lemma {:induction false} RemoveByIdIdempotent(data: seq<Record>, id: Option<Value>)
    ensures RemoveById(RemoveById(data, id), id) == RemoveById(data, id)
  {
    RemoveByIdNoMatch(RemoveById(data, id), id);
  }

  /** Deletions of two ids can be applied in either order. */
  lemma {:induction false} RemoveByIdCommutes(data: seq<Record>, a: Option<Value>, b: Option<Value>)
    ensures RemoveById(RemoveById(data, a), b) == RemoveById(RemoveById(data, b), a)
  {
    if data != [] {
      RemoveByIdCommutes(data[1..], a, b);
      var h := data[0];
      if IdOf(h) != a {
        RemoveByIdConcat([h], RemoveById(data[1..], a), b);
      }
      if IdOf(h) != b {
        RemoveByIdConcat([h], RemoveById(data[1..], b), a);
      }
    }
  }

  /** Removal keeps identifiers unique. */
  lemma {:induction false} RemoveByIdKeepsUnique(data: seq<Record>, id: Option<Value>)
    requires UniqueIds(data)
    ensures UniqueIds(RemoveById(data, id))
  {
    if data != [] {
      var t := data[1..];
      assert UniqueIds(t) by {
        forall i, j | 0 <= i < j < |t| ensures IdOf(t[i]) != IdOf(t[j]) {
          assert t[i] == data[i + 1] && t[j] == data[j + 1];
        }
      }
      RemoveByIdKeepsUnique(t, id);
      var rt := RemoveById(t, id);
      if IdOf(data[0]) != id {
        var r := [data[0]] + rt;
        forall i, j | 0 <= i < j < |r| ensures IdOf(r[i]) != IdOf(r[j]) {
          if i == 0 {
            assert r[j] in rt;
            var k :| 0 <= k < |t| && t[k] == r[j];
            assert data[k + 1] == r[j];
          } else {
            assert r[i] == rt[i - 1] && r[j] == rt[j - 1];
          }
        }
      }
    }
  }

  /** With unique identifiers, a delete removes at most one entry. */
  lemma {:induction false} UniqueIdsCountAtMostOne(data: seq<Record>, id: Option<Value>)
    requires UniqueIds(data)
    ensures CountId(data, id) <= 1
    ensures CountId(data, id) == 1 <==> exists x :: x in data && IdOf(x) == id
  {
    if data != [] {
      var t := data[1..];
      assert UniqueIds(t) by {
        forall i, j | 0 <= i < j < |t| ensures IdOf(t[i]) != IdOf(t[j]) {
          assert t[i] == data[i + 1] && t[j] == data[j + 1];
        }
      }
      UniqueIdsCountAtMostOne(t, id);
      assert data[0] in data;
      assert forall x :: x in t ==> x in data;
      assert forall x :: x in data ==> x == data[0] || x in t;
    }
  }

  // ---------------------------------------------------------------------------
  // Replacement by id

  /** Replacement works entry by entry: it distributes over concatenation, so no
      entry moves. */
  lemma {:induction false} ReplaceByIdConcat(a: seq<Record>, b: seq<Record>, id: Option<Value>, c: Record)
    ensures ReplaceById(a + b, id, c) == ReplaceById(a, id, c) + ReplaceById(b, id, c)
  {
    var l, r := ReplaceById(a + b, id, c), ReplaceById(a, id, c) + ReplaceById(b, id, c);
    forall i | 0 <= i < |l| ensures l[i] == r[i] {
      if i < |a| {
        assert (a + b)[i] == a[i];
      } else {
        assert (a + b)[i] == b[i - |a|];
      }
    }
  }

  /** If nothing matches, the list is returned as it was (an edit of a missing id
      is a silent no-op). */
  lemma {:induction false} ReplaceByIdNoMatch(data: seq<Record>, id: Option<Value>, c: Record)
    requires forall x :: x in data ==> IdOf(x) != id
    ensures ReplaceById(data, id, c) == data
  {
    var r := ReplaceById(data, id, c);
    forall i | 0 <= i < |data| ensures r[i] == data[i] {
      assert data[i] in data;
    }
  }

  /** Replacing with the same record twice is the same as doing it once. */
  lemma {:induction false} ReplaceByIdIdempotent(data: seq<Record>, id: Option<Value>, c: Record)
    ensures ReplaceById(ReplaceById(data, id, c), id, c) == ReplaceById(data, id, c)
  {
    var r := ReplaceById(data, id, c);
    var rr := ReplaceById(r, id, c);
    forall i | 0 <= i < |data| ensures rr[i] == r[i] {
    }
  }

  /** When the server returns the record under the same `id`, every position keeps
      its identifier, so unique identifiers stay unique. */
  lemma {:induction false} ReplaceByIdKeepsIds(data: seq<Record>, id: Option<Value>, c: Record)
    requires IdOf(c) == id
    ensures forall i :: 0 <= i < |data| ==> IdOf(ReplaceById(data, id, c)[i]) == IdOf(data[i])
    ensures UniqueIds(data) ==> UniqueIds(ReplaceById(data, id, c))
  {
    var r := ReplaceById(data, id, c);
    assert forall i :: 0 <= i < |data| ==> IdOf(r[i]) == IdOf(data[i]);
  }

  // ---------------------------------------------------------------------------
  // Appending

  /** Appending the created record keeps identifiers unique exactly when its `id`
      is new to the list. */
  lemma {:induction false} AppendUniqueIds(data: seq<Record>, c: Record)
    ensures UniqueIds(data + [c]) <==> UniqueIds(data) && forall x :: x in data ==> IdOf(x) != IdOf(c)
  {
    var d := data + [c];
    if UniqueIds(d) {
      forall i, j | 0 <= i < j < |data| ensures IdOf(data[i]) != IdOf(data[j]) {
        assert d[i] == data[i] && d[j] == data[j];
      }
      forall x | x in data ensures IdOf(x) != IdOf(c) {
        var k :| 0 <= k < |data| && data[k] == x;
        assert d[k] == x && d[|data|] == c;
      }
    }
    if UniqueIds(data) && forall x :: x in data ==> IdOf(x) != IdOf(c) {
      forall i, j | 0 <= i < j < |d| ensures IdOf(d[i]) != IdOf(d[j]) {
        if j == |data| {
          assert d[i] == data[i] && data[i] in data;
        } else {
          assert d[i] == data[i] && d[j] == data[j];
        }
      }
    }
  }
}
