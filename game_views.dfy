/**
 * The image relations of the Game model: `mainImage`, the game's image with
 * `is_main` set, and `screenshots`, the game's other images by ascending
 * sort order. Together they partition the game's images.
 */
module GameViews {
  import opened Support
  import opened Schema
  import opened Views

  /**
   * `hasOne(GameImage::class)->where('is_main', true)`: the first main image
   * of the game (the lowest id), or none if the game has no main image.
   */
  function MainImage(images: Table<GameImage>, game: Id): (r: Option<Id>)
    requires images.Valid()
    ensures r.Some? ==> r.value in images.rows && images.rows[r.value].gameId == game && images.rows[r.value].isMain
    ensures r.None? ==> forall i :: i in images.rows && images.rows[i].gameId == game ==> !images.rows[i].isMain
  {
    FirstId(images.rows, (im: GameImage) => im.gameId == game && im.isMain, 0, images.next)
  }

  /** With at most one main image per game, `mainImage` is exactly that image. */
  lemma MainImageIsTheMain(images: Table<GameImage>, game: Id, i: Id)
    requires images.Valid() && AtMostOneMain(images.rows) && i in images.rows && images.rows[i].gameId == game
    ensures MainImage(images, game) == Some(i) <==> images.rows[i].isMain
  {
    var m := MainImage(images, game);
    if images.rows[i].isMain {
      assert m.Some?;
    }
  }

  /** The `screenshots` rows of a game with their sort orders: its images without `is_main`. */
  function ScreenshotOrders(images: map<Id, GameImage>, game: Id): (r: map<Id, int>)
    ensures forall i :: i in r <==> i in images && images[i].gameId == game && !images[i].isMain
    ensures forall i :: i in r ==> r[i] == images[i].sortOrder
  {
    map i | i in images && images[i].gameId == game && !images[i].isMain :: images[i].sortOrder
  }

  /** `hasMany(GameImage::class)->where('is_main', false)->orderBy('sort_order')`. */
  ghost function Screenshots(images: map<Id, GameImage>, game: Id): (r: seq<(Id, int)>)
    ensures IdsOf(r) == ScreenshotOrders(images, game).Keys
    ensures forall i :: 0 <= i < |r| ==> r[i].0 in images && images[r[i].0].gameId == game && !images[r[i].0].isMain
    ensures forall i :: 0 <= i < |r| ==> r[i].1 == images[r[i].0].sortOrder
    ensures forall i, j :: 0 <= i < j < |r| ==> r[i].0 != r[j].0
    ensures SortedByOrder(r)
  {
    OrderedView(ScreenshotOrders(images, game))
  }

  /** Every image of a game is in exactly one of `mainImage` and `screenshots`. */
  lemma Partition(images: Table<GameImage>, game: Id, i: Id)
    requires images.Valid() && AtMostOneMain(images.rows) && i in images.rows && images.rows[i].gameId == game
    ensures (MainImage(images, game) == Some(i)) != (i in IdsOf(Screenshots(images.rows, game)))
  {
    MainImageIsTheMain(images, game, i);
  }

  /**
   * `$game->screenshots->max('sort_order')` over the rows with ids in
   * `from..bound-1`: the largest sort order, or none without screenshots.
   */
  function MaxOrderFrom(images: map<Id, GameImage>, game: Id, from: nat, bound: nat): (r: Option<int>)
    ensures r.Some? ==> exists i :: from <= i < bound && i in ScreenshotOrders(images, game) && images[i].sortOrder == r.value
    ensures r.Some? ==> forall i :: from <= i < bound && i in ScreenshotOrders(images, game) ==> images[i].sortOrder <= r.value
    ensures r.None? ==> forall i :: from <= i < bound ==> i !in ScreenshotOrders(images, game)
    decreases bound - from
  {
    if from >= bound then None
    else
      var rest := MaxOrderFrom(images, game, from + 1, bound);
      if from in images && images[from].gameId == game && !images[from].isMain then
        if rest.Some? && rest.value >= images[from].sortOrder then rest else Some(images[from].sortOrder)
      else rest
  }

  /** `$game->screenshots->max('sort_order') ?? 0`: at least every screenshot's sort order. */
  function MaxOrder(images: Table<GameImage>, game: Id): (m: int)
    requires images.Valid()
    ensures forall i :: i in ScreenshotOrders(images.rows, game) ==> images.rows[i].sortOrder <= m
    ensures ScreenshotOrders(images.rows, game) == map[] ==> m == 0
    ensures ScreenshotOrders(images.rows, game) != map[] ==>
      exists i :: i in ScreenshotOrders(images.rows, game) && images.rows[i].sortOrder == m
  {
    var r := MaxOrderFrom(images.rows, game, 0, images.next);
    if r.None? then
      assert forall i :: i in ScreenshotOrders(images.rows, game) ==> i < images.next;
      0
    else r.value
  }
}
