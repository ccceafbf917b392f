/**
 * GameInfoController: the form data of the game editor, namely every genre
 * and every platform with its id and name, and the distinct non-empty link
 * labels.
 */
module GameInfo {
  import opened Support
  import opened Pools
  import opened Schema

  /** The answer of `gameDatas`. */
  datatype GameData = GameData(genres: set<(Id, string)>, platforms: set<(Id, string)>, linkLabels: seq<string>)

  /** A label that `where('label', '!=', null)->where('label', '!=', '')` lets through. */
  predicate Labelled(link: Link) {
    link.caption.Some? && link.caption.value != ""
  }

  /** The labels the query selects, as a set: every non-null, non-empty label of some link. */
  function LabelSet(rows: map<Id, Link>): (r: set<string>)
    ensures forall s :: s in r <==> exists id :: id in rows && Labelled(rows[id]) && rows[id].caption.value == s
  {
    set id | id in rows && Labelled(rows[id]) :: rows[id].caption.value
  }

  /**
   * `Link::select('label')->distinct()->...->pluck('label')` over the links
   * with ids below `n`, each label once, in the order of its first link.
   */
  function LabelsBelow(rows: map<Id, Link>, n: nat): (r: seq<string>)
    ensures forall i, j :: 0 <= i < j < |r| ==> r[i] != r[j]
    ensures forall i :: 0 <= i < |r| ==> r[i] in LabelSet(rows)
    ensures forall id :: id < n && id in rows && Labelled(rows[id]) ==> rows[id].caption.value in r
  {
    if n == 0 then []
    else
      var earlier := LabelsBelow(rows, n - 1);
      var id := n - 1;
      if id in rows && Labelled(rows[id]) && rows[id].caption.value !in earlier then earlier + [rows[id].caption.value]
      else earlier
  }

  /** The `link_labels` of the answer. */
  function LinkLabels(links: Table<Link>): seq<string> {
    LabelsBelow(links.rows, links.next)
  }

  /** `gameDatas`. */
  function GameDatas(cat: Catalog): GameData {
    GameData(Listing(cat.genres), Listing(cat.platforms), LinkLabels(cat.links))
  }

  /**
   * The labels of `gameDatas` hold no null and no empty label, no label
   * twice, and every label some link carries: they are the query's label
   * set, listed once each.
   */
  lemma GameDatasLabels(cat: Catalog)
    requires cat.links.Valid()
    ensures var r := GameDatas(cat).linkLabels;
      && (forall i, j :: 0 <= i < j < |r| ==> r[i] != r[j])
      && (forall s :: s in r <==> s in LabelSet(cat.links.rows))
      && |r| == |LabelSet(cat.links.rows)|
  {
    var r := GameDatas(cat).linkLabels;
    var rows := cat.links.rows;
    forall s ensures s in r <==> s in LabelSet(rows) {
      if s in LabelSet(rows) {
        var id :| id in rows && Labelled(rows[id]) && rows[id].caption.value == s;
        assert id < cat.links.next;
      }
    }
    DistinctCard(r, LabelSet(rows));
  }

  /** A sequence without repetitions has as many elements as the set of its elements. */
  lemma {:induction false} DistinctCard(r: seq<string>, s: set<string>)
    requires forall i, j :: 0 <= i < j < |r| ==> r[i] != r[j]
    requires forall x :: x in r <==> x in s
    ensures |r| == |s|
    decreases |r|
  {
    if |r| > 0 {
      var last := r[|r| - 1];
      var init := r[..|r| - 1];
      assert forall x :: x in init <==> x in s - {last} by {
        forall x ensures x in init <==> x in s - {last} {
          if x in init {
            var i :| 0 <= i < |init| && init[i] == x;
            assert r[i] == x;
          }
          if x in s - {last} {
            var i :| 0 <= i < |r| && r[i] == x;
            assert i != |r| - 1;
            assert init[i] == x;
          }
        }
      }
      DistinctCard(init, s - {last});
    } else {
      assert forall x :: x !in s;
      assert s == {};
    }
  }
}
