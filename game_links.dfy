/**
 * The link resolution of GameController. The `links` request field is a
 * JSON array whose elements carry a `url`, an optional `label` and, in
 * `update`, an optional `id`. Elements without a valid URL are skipped.
 * `store` finds or creates a link by its exact URL; `update` resolves by id,
 * then by URL, and otherwise creates a link. Either way the game's link set
 * then becomes the resolved ids. Links are shared between games, so
 * resolving can rewrite a link that other games reference as well.
 */
module GameLinks {
  import opened Support
  import opened Schema

  /**
   * One decoded element of the `links` array. A `None` is a key that is
   * absent or null; `isset` does not tell those apart.
   */
  datatype LinkItem = LinkItem(url: Option<string>, caption: Option<string>, id: Option<int>)

  /** `isset($linkItem['url']) && filter_var($linkItem['url'], FILTER_VALIDATE_URL)`, the filter being a parameter. */
  predicate Accepted(item: LinkItem, validUrl: string -> bool) {
    item.url.Some? && validUrl(item.url.value)
  }

  /** The URLs of the accepted elements, in order, as submitted. */
  function AcceptedUrls(items: seq<LinkItem>, validUrl: string -> bool): (r: seq<string>)
    ensures |r| <= |items|
    decreases |items|
  {
    if items == [] then []
    else
      var n := |items| - 1;
      AcceptedUrls(items[..n], validUrl) + (if Accepted(items[n], validUrl) then [items[n].url.value] else [])
  }

  /** `Link::where('url', $url)->first()`: urls are unique, so this is the one link holding `url`, if any. */
  function LinkByUrl(links: Table<Link>, url: string): (r: Option<Id>)
    requires links.Valid()
    ensures r.Some? ==> r.value in links.rows && links.rows[r.value].url == url
    ensures r.None? ==> forall i :: i in links.rows ==> links.rows[i].url != url
  {
    FirstId(links.rows, (l: Link) => l.url == url, 0, links.next)
  }

  // ---- store ----

  /**
   * `Link::firstOrCreate(['url' => $url], ['label' => $label ?? null])`: the
   * link already holding the url is returned untouched; only a new link
   * gets the submitted label.
   */
  function FindOrCreate(links: Table<Link>, url: string, caption: Option<string>): (r: (Table<Link>, Id))
    requires LinksValid(links)
    ensures LinksValid(r.0) && r.1 in r.0.rows && r.0.rows[r.1].url == url
    ensures r.0.rows.Keys == links.rows.Keys + {r.1}
    ensures forall i :: i in links.rows ==> r.0.rows[i] == links.rows[i]
    ensures forall i :: i in links.rows && links.rows[i].url == url ==> r.1 == i
    ensures r.1 in links.rows ==> r.0 == links
    ensures r.1 !in links.rows ==> r.0.rows[r.1].caption == caption
  {
    var found := LinkByUrl(links, url);
    if found.Some? then (links, found.value)
    else links.Insert(Link(url, caption))
  }

  /**
   * The loop of `store` over the decoded elements: every accepted element
   * adds the id of the link holding its URL. Links that existed before keep
   * their URL and their label.
   */
  function StoreLinks(links: Table<Link>, items: seq<LinkItem>, validUrl: string -> bool): (r: (Table<Link>, seq<Id>))
    requires LinksValid(links)
    ensures LinksValid(r.0)
    ensures links.rows.Keys <= r.0.rows.Keys
    ensures forall i :: i in links.rows ==> r.0.rows[i] == links.rows[i]
    ensures |r.1| == |AcceptedUrls(items, validUrl)|
    ensures forall j :: 0 <= j < |r.1| ==> r.1[j] in r.0.rows && r.0.rows[r.1[j]].url == AcceptedUrls(items, validUrl)[j]
    decreases |items|
  {
    if items == [] then (links, [])
    else
      var n := |items| - 1;
      var prev := StoreLinks(links, items[..n], validUrl);
      if Accepted(items[n], validUrl) then
        var step := FindOrCreate(prev.0, items[n].url.value, items[n].caption);
        (step.0, prev.1 + [step.1])
      else prev
  }

  /** `foreach ($linkData as $linkItem)` in `store`. */
  method StoreLinkLoop(links: Table<Link>, items: seq<LinkItem>, validUrl: string -> bool)
    returns (links': Table<Link>, ids: seq<Id>)
    requires LinksValid(links)
    ensures (links', ids) == StoreLinks(links, items, validUrl)
  {
    links', ids := links, [];
    for k := 0 to |items|
      invariant StoreLinks(links, items[..k], validUrl) == (links', ids)
    {
      PrefixSnoc(items, k);
      assert items[..k + 1][..k] == items[..k];
      if Accepted(items[k], validUrl) {
        var step := FindOrCreate(links', items[k].url.value, items[k].caption);
        links', ids := step.0, ids + [step.1];
      }
    }
    assert items[..|items|] == items;
  }

  /** Some link holds `url`. */
  predicate HasLink(links: Table<Link>, url: string) {
    exists i :: i in links.rows && links.rows[i].url == url
  }

  /** When every accepted URL already has a link, store's loop creates and changes nothing. */
  lemma {:induction false} KnownLinksFound(links: Table<Link>, items: seq<LinkItem>, validUrl: string -> bool)
    requires LinksValid(links)
    requires forall j :: 0 <= j < |AcceptedUrls(items, validUrl)| ==> HasLink(links, AcceptedUrls(items, validUrl)[j])
    ensures StoreLinks(links, items, validUrl).0 == links
    decreases |items|
  {
    if items != [] {
      var n := |items| - 1;
      var pre, all := AcceptedUrls(items[..n], validUrl), AcceptedUrls(items, validUrl);
      assert all == pre + (if Accepted(items[n], validUrl) then [items[n].url.value] else []);
      forall j | 0 <= j < |pre| ensures HasLink(links, pre[j]) {
        assert pre[j] == all[j];
      }
      KnownLinksFound(links, items[..n], validUrl);
      if Accepted(items[n], validUrl) {
        assert AcceptedUrls(items, validUrl)[|pre|] == items[n].url.value;
      }
    }
  }

  /** Store's find-or-create never rewrites a link: resolving the same elements again yields the same ids and changes nothing. */
  lemma StoreLinksIdempotent(links: Table<Link>, items: seq<LinkItem>, validUrl: string -> bool)
    requires LinksValid(links)
    ensures var r := StoreLinks(links, items, validUrl);
      StoreLinks(r.0, items, validUrl) == r
  {
    var r := StoreLinks(links, items, validUrl);
    var urls := AcceptedUrls(items, validUrl);
    forall j | 0 <= j < |urls| ensures HasLink(r.0, urls[j]) {
      assert r.1[j] in r.0.rows && r.0.rows[r.1[j]].url == urls[j];
    }
    KnownLinksFound(r.0, items, validUrl);
    var again := StoreLinks(r.0, items, validUrl);
    assert again.0 == r.0 && |again.1| == |r.1|;
    forall j | 0 <= j < |again.1| ensures again.1[j] == r.1[j] {
      assert r.0.rows[again.1[j]].url == urls[j] == r.0.rows[r.1[j]].url;
    }
    assert again.1 == r.1;
  }

  // ---- update ----

  /** `isset($linkItem['label']) ? trim($linkItem['label']) : null`. */
  function Caption(item: LinkItem): (c: Option<string>)
    ensures c.Some? <==> item.caption.Some?
    ensures c.Some? ==> c.value == Trim(item.caption.value)
  {
    if item.caption.Some? then Some(Trim(item.caption.value)) else None
  }

  /** `if ($id) { $link = Link::find($id); ... }` finds a link: the id is truthy and names an existing link. */
  predicate KnownId(links: Table<Link>, id: Option<int>) {
    id.Some? && id.value > 0 && id.value in links.rows
  }

  /** Some link other than `id` holds `url`. */
  predicate TakenByOther(links: Table<Link>, url: string, id: Id) {
    exists i :: i in links.rows && i != id && links.rows[i].url == url
  }

  /**
   * The outcome of one element of update's loop: skipped, resolved to a link
   * (with the links table afterwards), or a unique-key violation on `url`.
   */
  datatype LinkStep = Skip | Resolved(links: Table<Link>, id: Id) | Collision

  /**
   * One iteration of update's loop. A known id is given the trimmed URL and
   * label (a write only when they differ), which violates the unique key
   * when another link holds that URL. Otherwise the link holding the URL
   * gets the label, and without one a new link is created.
   */
  function UpdateStep(links: Table<Link>, item: LinkItem, validUrl: string -> bool): (r: LinkStep)
    requires LinksValid(links)
    ensures r.Skip? <==> !Accepted(item, validUrl)
    ensures r.Collision? <==>
      Accepted(item, validUrl) && KnownId(links, item.id) && TakenByOther(links, Trim(item.url.value), item.id.value)
    ensures r.Resolved? ==>
      && LinksValid(r.links)
      && r.links.rows == links.rows[r.id := Link(Trim(item.url.value), Caption(item))]
      && (r.id in links.rows ==> r.links.next == links.next)
      && (r.id !in links.rows ==> r.id == links.next && r.links.next == links.next + 1)
    ensures r.Resolved? && KnownId(links, item.id) ==> r.id == item.id.value
    ensures r.Resolved? && !KnownId(links, item.id) ==>
      && (r.id in links.rows ==> links.rows[r.id].url == Trim(item.url.value))
      && (r.id !in links.rows ==> forall i :: i in links.rows ==> links.rows[i].url != Trim(item.url.value))
  {
    if !Accepted(item, validUrl) then Skip
    else
      var url, caption := Trim(item.url.value), Caption(item);
      var holder := LinkByUrl(links, url);
      if KnownId(links, item.id) then
        var id: Id := item.id.value;
        if holder.Some? && holder.value != id then Collision
        else Resolved(links.Put(id, Link(url, caption)), id)
      else if holder.Some? then
        Resolved(links.Put(holder.value, Link(url, caption)), holder.value)
      else
        var ins := links.Insert(Link(url, caption));
        Resolved(ins.0, ins.1)
  }

  /** The state of update's loop: the links table, the ids collected so far, and whether an element failed. */
  datatype LinkFold = LinkFold(links: Table<Link>, ids: seq<Id>, failed: bool)

  /**
   * Update's loop over the decoded elements. The first collision throws and
   * ends the loop, and the writes made before it stay.
   */
  function UpdateLinks(links: Table<Link>, items: seq<LinkItem>, validUrl: string -> bool): (r: LinkFold)
    requires LinksValid(links)
    ensures LinksValid(r.links)
    ensures links.rows.Keys <= r.links.rows.Keys
    ensures forall j :: 0 <= j < |r.ids| ==> r.ids[j] in r.links.rows
    ensures !r.failed ==> |r.ids| == |AcceptedUrls(items, validUrl)|
    decreases |items|
  {
    if items == [] then LinkFold(links, [], false)
    else
      var n := |items| - 1;
      var prev := UpdateLinks(links, items[..n], validUrl);
      if prev.failed then prev
      else
        match UpdateStep(prev.links, items[n], validUrl)
        case Skip => prev
        case Collision => prev.(failed := true)
        case Resolved(links', id) => LinkFold(links', prev.ids + [id], false)
  }

  /** Once an element has failed, the remaining elements change nothing. */
  lemma {:induction false} FailureFinal(links: Table<Link>, items: seq<LinkItem>, validUrl: string -> bool, k: nat)
    requires LinksValid(links) && k <= |items|
    requires UpdateLinks(links, items[..k], validUrl).failed
    ensures UpdateLinks(links, items, validUrl) == UpdateLinks(links, items[..k], validUrl)
    decreases |items| - k
  {
    if k < |items| {
      var prefix := items[..|items| - 1];
      assert prefix[..k] == items[..k];
      FailureFinal(links, prefix, validUrl, k);
      assert UpdateLinks(links, items, validUrl) == UpdateLinks(links, prefix, validUrl);
    } else {
      assert items[..k] == items;
    }
  }

  /** `foreach ($linkData as $linkItem)` in `update`; the collision's exception leaves the loop. */
  method UpdateLinkLoop(links: Table<Link>, items: seq<LinkItem>, validUrl: string -> bool)
    returns (links': Table<Link>, ids: seq<Id>, failed: bool)
    requires LinksValid(links)
    ensures LinkFold(links', ids, failed) == UpdateLinks(links, items, validUrl)
  {
    links', ids, failed := links, [], false;
    var k := 0;
    while k < |items|
      invariant 0 <= k <= |items|
      invariant UpdateLinks(links, items[..k], validUrl) == LinkFold(links', ids, false)
    {
      PrefixSnoc(items, k);
      assert items[..k + 1][..k] == items[..k];
      var step := UpdateStep(links', items[k], validUrl);
      match step {
        case Skip =>
        case Collision =>
          failed := true;
          FailureFinal(links, items, validUrl, k + 1);
          return;
        case Resolved(next, id) =>
          links', ids := next, ids + [id];
      }
      k := k + 1;
    }
    assert items[..|items|] == items;
  }
}
