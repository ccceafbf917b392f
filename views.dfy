/**
 * Ordered relation views: Eloquent relations declared with
 * `->orderBy(... sort_order)` list their rows by ascending sort order. The
 * order among rows with equal sort orders is left to the database; the view
 * below picks any.
 */
module Views {
  import opened Support

  /** The ids of a listing. */
  function IdsOf(r: seq<(Id, int)>): set<Id> {
    set i | 0 <= i < |r| :: r[i].0
  }

  predicate SortedByOrder(r: seq<(Id, int)>) {
    forall i, j :: 0 <= i < j < |r| ==> r[i].1 <= r[j].1
  }

  /** Among the keys in a non-empty set, one has the least sort order. */
  lemma {:induction false} MinimumIn(rel: map<Id, int>, keys: set<Id>)
    requires keys != {} && keys <= rel.Keys
    ensures exists k :: k in keys && forall k' :: k' in keys ==> rel[k] <= rel[k']
    decreases keys
  {
    var k0 :| k0 in keys;
    var rest := keys - {k0};
    if rest == {} {
      forall k' | k' in keys ensures rel[k0] <= rel[k'] {
        assert k' !in rest;
      }
    } else {
      MinimumIn(rel, rest);
      var m :| m in rest && forall k' :: k' in rest ==> rel[m] <= rel[k'];
      var best := if rel[k0] <= rel[m] then k0 else m;
      assert forall k' :: k' in keys ==> k' == k0 || k' in rest;
      assert best in keys && forall k' :: k' in keys ==> rel[best] <= rel[k'];
    }
  }

  /** A non-empty relation has a row of least sort order. */
  lemma MinimumExists(rel: map<Id, int>)
    requires rel != map[]
    ensures exists k :: k in rel && forall k' :: k' in rel ==> rel[k] <= rel[k']
  {
    MinimumIn(rel, rel.Keys);
  }

  /** Putting a minimal row in front of an ordered listing of the other rows. */
  lemma PrependMinimum(rel: map<Id, int>, k: Id, tail: seq<(Id, int)>)
    requires k in rel && forall k' :: k' in rel ==> rel[k] <= rel[k']
    requires IdsOf(tail) == rel.Keys - {k}
    requires forall i :: 0 <= i < |tail| ==> tail[i].0 in rel && rel[tail[i].0] == tail[i].1
    requires forall i, j :: 0 <= i < j < |tail| ==> tail[i].0 != tail[j].0
    requires SortedByOrder(tail)
    ensures var r := [(k, rel[k])] + tail;
      && IdsOf(r) == rel.Keys
      && (forall i :: 0 <= i < |r| ==> r[i].0 in rel && rel[r[i].0] == r[i].1)
      && (forall i, j :: 0 <= i < j < |r| ==> r[i].0 != r[j].0)
      && SortedByOrder(r)
  {
    var r := [(k, rel[k])] + tail;
    forall id | id in IdsOf(r) ensures id in rel.Keys {
      var i :| 0 <= i < |r| && r[i].0 == id;
      if i > 0 { assert tail[i - 1].0 == id; }
    }
    forall id | id in rel.Keys ensures id in IdsOf(r) {
      if id == k {
        assert r[0].0 == id;
      } else {
        assert id in IdsOf(tail);
        var i :| 0 <= i < |tail| && tail[i].0 == id;
        assert r[i + 1].0 == id;
      }
    }
    forall i, j | 0 <= i < j < |r| ensures r[i].0 != r[j].0 {
      if i == 0 {
        assert r[j].0 == tail[j - 1].0;
        assert tail[j - 1].0 in IdsOf(tail);
      }
    }
  }

  /**
   * The rows of a relation `id -> sort_order` as a listing in ascending
   * sort order: every row exactly once, each with its own sort order.
   */
  ghost function OrderedView(rel: map<Id, int>): (r: seq<(Id, int)>)
    ensures |r| == |rel|
    ensures IdsOf(r) == rel.Keys
    ensures forall i :: 0 <= i < |r| ==> r[i].0 in rel && rel[r[i].0] == r[i].1
    ensures forall i, j :: 0 <= i < j < |r| ==> r[i].0 != r[j].0
    ensures SortedByOrder(r)
    decreases |rel|
  {
    if rel == map[] then []
    else
      MinimumExists(rel);
      var k :| k in rel && forall k' :: k' in rel ==> rel[k] <= rel[k'];
      var rest := rel - {k};
      assert rest.Keys == rel.Keys - {k};
      assert |rest| == |rel| - 1;
      var tail := OrderedView(rest);
      PrependMinimum(rel, k, tail);
      [(k, rel[k])] + tail
  }
}
