/**
 * The trigger side of the lightbox: the component on the page that finds the
 * toggle elements, reads one gallery item from each, removes items that repeat
 * a source, and opens its panel at the item of the toggle that was clicked,
 * unless the mouse moved far enough between mousedown and mouseup to count as
 * a swipe.
 */
module Lightbox {
  import opened Util
  import opened Media

  // ---------------------------------------------------------------- toggles and items

  /** A toggle element: its lower-case tag name, its attributes and its classes. */
  datatype Toggle = Toggle(tagName: string, attributes: map<string, string>, classes: set<string>)

  /**
   * The host library's `data(el, name)`: the attribute `name` when present,
   * otherwise `data-name`, otherwise nothing.
   */
  function Data(el: Toggle, name: string): (r: Option<string>)
    ensures name in el.attributes ==> r == Some(el.attributes[name])
    ensures name !in el.attributes && "data-" + name in el.attributes ==> r == Some(el.attributes["data-" + name])
    ensures r.None? <==> name !in el.attributes && "data-" + name !in el.attributes
  {
    if name in el.attributes then Some(el.attributes[name])
    else if "data-" + name in el.attributes then Some(el.attributes["data-" + name])
    else None
  }

  /** The eight attributes a toggle's item is read from. */
  datatype Key = SrcsetKey | SourceKey | HrefKey | CaptionKey | TypeKey | PosterKey | AltKey | AttrsKey

  /** The attribute name of a key. */
  function Name(k: Key): string {
    match k
    case SrcsetKey => "srcset"
    case SourceKey => "source"
    case HrefKey => "href"
    case CaptionKey => "caption"
    case TypeKey => "type"
    case PosterKey => "poster"
    case AltKey => "alt"
    case AttrsKey => "attrs"
  }

  /** The keys in the order they are read. */
  const ItemKeys: seq<Key> := [SrcsetKey, SourceKey, HrefKey, CaptionKey, TypeKey, PosterKey, AltKey, AttrsKey]

  /** The item field a key is stored in: `href` is stored in `source`. */
  function Slot(k: Key): Key {
    if k == HrefKey then SourceKey else k
  }

  /**
   * For each field written by the first `i` reads, the key whose attribute it
   * holds; a later key stored in the same field replaces the earlier one.
   */
  function ReadFrom(i: nat): map<Key, Key>
    requires i <= |ItemKeys|
  {
    if i == 0 then map[]
    else ReadFrom(i - 1)[Slot(ItemKeys[i - 1]) := ItemKeys[i - 1]]
  }

  /** After all eight reads the `source` field holds the `href` attribute, and every other field its own. */
  lemma HrefReadLast()
    ensures ReadFrom(|ItemKeys|) == map[SrcsetKey := SrcsetKey, SourceKey := HrefKey, CaptionKey := CaptionKey,
      TypeKey := TypeKey, PosterKey := PosterKey, AltKey := AltKey, AttrsKey := AttrsKey]
  {
    assert ReadFrom(1) == ReadFrom(0)[SrcsetKey := SrcsetKey];
    assert ReadFrom(2) == ReadFrom(1)[SourceKey := SourceKey];
    assert ReadFrom(3) == ReadFrom(2)[SourceKey := HrefKey];
    assert ReadFrom(4) == ReadFrom(3)[CaptionKey := CaptionKey];
    assert ReadFrom(5) == ReadFrom(4)[TypeKey := TypeKey];
    assert ReadFrom(6) == ReadFrom(5)[PosterKey := PosterKey];
    assert ReadFrom(7) == ReadFrom(6)[AltKey := AltKey];
    assert ReadFrom(8) == ReadFrom(7)[AttrsKey := AttrsKey];
  }

  /** A field of the raw record; a field never written reads as absent. */
  function Field(raw: map<Key, Option<string>>, k: Key): Option<string> {
    if k in raw then raw[k] else None
  }

  /**
   * The options parser applied to the `attrs` field: an absent or empty string
   * gives no attributes, anything else is handed to `parse`, which stands for the
   * framework's option-string parser.
   */
  function ParseOptions(raw: Option<string>, parse: string -> Attrs): (a: Attrs)
    ensures !Truthy(raw) ==> a == map[]
  {
    if Truthy(raw) then parse(raw.value) else map[]
  }

  /** The item built from the raw record, with the options string parsed. */
  function ItemFromRaw(raw: map<Key, Option<string>>, parse: string -> Attrs): Item {
    Item(Field(raw, SourceKey), Field(raw, SrcsetKey), Field(raw, CaptionKey), Field(raw, TypeKey),
         Field(raw, PosterKey), Field(raw, AltKey), ParseOptions(Field(raw, AttrsKey), parse))
  }

  /** The item a toggle describes: its source is the toggle's `href` (or `data-href`). */
  function ItemOf(el: Toggle, parse: string -> Attrs): Item {
    Item(Data(el, "href"), Data(el, "srcset"), Data(el, "caption"), Data(el, "type"),
         Data(el, "poster"), Data(el, "alt"), ParseOptions(Data(el, "attrs"), parse))
  }

  /** The reading loop over the eight keys, then the parsing of the options string. */
  method ToItem(el: Toggle, parse: string -> Attrs) returns (item: Item)
    ensures item == ItemOf(el, parse)
  {
    var raw: map<Key, Option<string>> := map[];
    var i := 0;
    while i < |ItemKeys|
      invariant 0 <= i <= |ItemKeys|
      invariant raw.Keys == ReadFrom(i).Keys
      invariant forall f :: f in raw ==> raw[f] == Data(el, Name(ReadFrom(i)[f]))
    {
      var key := ItemKeys[i];
      raw := raw[Slot(key) := Data(el, Name(key))];
      i := i + 1;
    }
    HrefReadLast();
    item := ItemFromRaw(raw, parse);
  }

  /** Changing a toggle's `source` attribute changes nothing in its item. */
  lemma SourceAttributeIgnored(el: Toggle, v: string, parse: string -> Attrs)
    ensures ItemOf(el.(attributes := el.attributes["source" := v]), parse) == ItemOf(el, parse)
  {
    var el' := el.(attributes := el.attributes["source" := v]);
    assert "data-srcset" != "source" && "data-href" != "source" && "data-caption" != "source";
    assert "data-type" != "source" && "data-poster" != "source" && "data-alt" != "source" && "data-attrs" != "source";
    assert Data(el', "href") == Data(el, "href");
    assert Data(el', "srcset") == Data(el, "srcset");
    assert Data(el', "attrs") == Data(el, "attrs");
  }

  /** The items of the toggles, in document order. */
  function ItemsOf(toggles: seq<Toggle>, parse: string -> Attrs): (items: seq<Item>)
    ensures |items| == |toggles|
    ensures forall i :: 0 <= i < |toggles| ==> items[i].source == Data(toggles[i], "href")
  {
    seq(|toggles|, i requires 0 <= i < |toggles| => ItemOf(toggles[i], parse))
  }

  // ---------------------------------------------------------------- removing repeated sources

  /** The sources of a list of items, absent ones included. */
  function Sources(items: seq<Item>): set<Option<string>> {
    set i | 0 <= i < |items| :: items[i].source
  }

  lemma SourcesSnoc(items: seq<Item>, x: Item)
    ensures Sources(items + [x]) == Sources(items) + {x.source}
  {
    var s := items + [x];
    forall src | src in Sources(s) ensures src in Sources(items) + {x.source} {
      var i :| 0 <= i < |s| && s[i].source == src;
      if i < |items| {
        assert items[i].source == src;
      }
    }
    forall src | src in Sources(items) ensures src in Sources(s) {
      var i :| 0 <= i < |items| && items[i].source == src;
      assert s[i].source == src;
    }
    assert s[|items|].source == x.source;
  }

  /**
   * The host library's `uniqueBy(items, 'source')`: the items in order, each
   * dropped when an earlier item has the same source (two absent sources count
   * as the same).
   */
  function UniqueBySource(items: seq<Item>): (r: seq<Item>)
    ensures Sources(r) == Sources(items)
    ensures forall j, k :: 0 <= j < k < |r| ==> r[j].source != r[k].source
    decreases |items|
  {
    if items == [] then []
    else
      var n := |items| - 1;
      var p := UniqueBySource(items[..n]);
      var x := items[n];
      assert items[..n] + [x] == items;
      SourcesSnoc(items[..n], x);
      if x.source in Sources(p) then p
      else
        SourcesSnoc(p, x);
        assert forall j :: 0 <= j < |p| ==> p[j].source in Sources(p);
        p + [x]
  }

  /**
   * The host library's `findIndex` with the test "same source": the first
   * position whose item has source `src`, or -1 when there is none.
   */
  function FindIndexBySource(items: seq<Item>, src: Option<string>): (i: int)
    ensures -1 <= i < |items|
    ensures i == -1 <==> src !in Sources(items)
    ensures i >= 0 ==> items[i].source == src && forall j :: 0 <= j < i ==> items[j].source != src
    decreases |items|
  {
    if items == [] then -1
    else
      var n := |items| - 1;
      var i := FindIndexBySource(items[..n], src);
      assert items[..n] + [items[n]] == items;
      SourcesSnoc(items[..n], items[n]);
      if i >= 0 then i
      else if items[n].source == src then n
      else -1
  }

  /** Appending an item leaves the first position of a source already present unchanged, and gives a new source the last position. */
  lemma FindIndexSnoc(items: seq<Item>, x: Item, src: Option<string>)
    ensures src in Sources(items) ==> FindIndexBySource(items + [x], src) == FindIndexBySource(items, src)
    ensures src !in Sources(items) && x.source == src ==> FindIndexBySource(items + [x], src) == |items|
  {
    assert (items + [x])[..|items|] == items;
  }

  /** Every kept item is the first item of the input with its source. */
  lemma {:induction false} UniqueKeepsFirst(items: seq<Item>, j: nat)
    requires j < |UniqueBySource(items)|
    ensures UniqueBySource(items)[j] == items[FindIndexBySource(items, UniqueBySource(items)[j].source)]
    decreases |items|
  {
    var n := |items| - 1;
    var p := UniqueBySource(items[..n]);
    var x := items[n];
    assert items[..n] + [x] == items;
    if j < |p| {
      UniqueKeepsFirst(items[..n], j);
      assert p[j].source in Sources(p);
      FindIndexSnoc(items[..n], x, p[j].source);
      assert UniqueBySource(items)[j] == p[j];
    } else {
      assert x.source !in Sources(p);
      FindIndexSnoc(items[..n], x, x.source);
    }
  }

  /** The kept items appear in the order of their first occurrences. */
  lemma {:induction false} UniqueKeepsOrder(items: seq<Item>, j: nat, k: nat)
    requires j < k < |UniqueBySource(items)|
    ensures FindIndexBySource(items, UniqueBySource(items)[j].source)
            < FindIndexBySource(items, UniqueBySource(items)[k].source)
    decreases |items|
  {
    var n := |items| - 1;
    var p := UniqueBySource(items[..n]);
    var x := items[n];
    assert items[..n] + [x] == items;
    assert UniqueBySource(items)[j] == p[j];
    assert p[j].source in Sources(p);
    FindIndexSnoc(items[..n], x, p[j].source);
    if k < |p| {
      UniqueKeepsOrder(items[..n], j, k);
      assert UniqueBySource(items)[k] == p[k];
      assert p[k].source in Sources(p);
      FindIndexSnoc(items[..n], x, p[k].source);
    } else {
      assert x.source !in Sources(p);
      FindIndexSnoc(items[..n], x, x.source);
    }
  }

  // ---------------------------------------------------------------- opening at a toggle

  /** What `show` is given: a toggle element, or a position passed on unchanged. */
  datatype ShowArg = ElementArg(el: Toggle) | IndexArg(i: int)

  /** The position `show` hands to the panel. */
  function ShowIndex(arg: ShowArg, items: seq<Item>, parse: string -> Attrs): int {
    match arg
    case IndexArg(i) => i
    case ElementArg(el) => FindIndexBySource(items, ItemOf(el, parse).source)
  }

  /**
   * Showing one of the toggles opens the panel at a valid position, at the item
   * read from the first toggle that has the same source.
   */
  lemma ShowAtToggle(toggles: seq<Toggle>, parse: string -> Attrs, t: nat)
    requires t < |toggles|
    ensures var all := ItemsOf(toggles, parse);
            var items := UniqueBySource(all);
            var i := ShowIndex(ElementArg(toggles[t]), items, parse);
            && 0 <= i < |items|
            && items[i].source == all[t].source
            && items[i] == all[FindIndexBySource(all, all[t].source)]
            && FindIndexBySource(all, all[t].source) <= t
  {
    var all := ItemsOf(toggles, parse);
    var items := UniqueBySource(all);
    assert all[t].source in Sources(all);
    var i := FindIndexBySource(items, all[t].source);
    UniqueKeepsFirst(all, i);
  }

  // ---------------------------------------------------------------- clicks and swipes

  /** The distance from which a mousedown-to-mouseup movement counts as a swipe. */
  const SwipeThreshold: real := 10.0

  /** The class that excludes a toggle from the delegated mouse handlers. */
  const DisabledClass: string := "uk-disabled"

  datatype Point = Point(x: real, y: real)

  /** The squared distance between two mouse positions. */
  function Distance2(a: Point, b: Point): real {
    (b.x - a.x) * (b.x - a.x) + (b.y - a.y) * (b.y - a.y)
  }

  /**
   * What a delegated click does: it throws while either position was never
   * recorded (reading a coordinate of `undefined`), ignores a swipe, and
   * otherwise opens the lightbox. `NotDelegated` is a click on a disabled toggle.
   */
  datatype ClickOutcome = NotDelegated | Threw | SwipeIgnored | Opened

  function ClickDecision(down: Option<Point>, up: Option<Point>, threshold: real): (r: ClickOutcome)
    ensures r != NotDelegated
    ensures r == Threw <==> down.None? || up.None?
  {
    if up.None? || down.None? then Threw
    else if Distance2(down.value, up.value) >= threshold * threshold then SwipeIgnored
    else Opened
  }

  lemma SquareOrder(h: real, t: real)
    requires h >= 0.0 && t >= 0.0
    ensures h < t <==> h * h < t * t
  {
    var d := t - h;
    assert t * t == h * h + d * (t + h);
    if h < t {
      assert d * (t + h) > 0.0;
    } else {
      assert d * (t + h) <= 0.0;
    }
  }

  /**
   * With `h` the Euclidean distance between the recorded positions (what
   * `Math.hypot` computes), the click opens the lightbox exactly when `h` is
   * below the threshold and is ignored exactly when `h` reaches it.
   */
  lemma ClickFollowsDistance(down: Point, up: Point, threshold: real, h: real)
    requires threshold >= 0.0 && h >= 0.0 && h * h == Distance2(down, up)
    ensures ClickDecision(Some(down), Some(up), threshold) == Opened <==> h < threshold
    ensures ClickDecision(Some(down), Some(up), threshold) == SwipeIgnored <==> h >= threshold
  {
    SquareOrder(h, threshold);
  }

  /** A movement of exactly the threshold is a swipe; one just below it is a click. */
  lemma ThresholdExamples()
    ensures ClickDecision(Some(Point(0.0, 0.0)), Some(Point(6.0, 8.0)), SwipeThreshold) == SwipeIgnored
    ensures ClickDecision(Some(Point(0.0, 0.0)), Some(Point(6.0, 7.9)), SwipeThreshold) == Opened
    ensures ClickDecision(None, Some(Point(0.0, 0.0)), SwipeThreshold) == Threw
  {
  }

  /** An `<a>` toggle is marked as a button; other toggles are left alone. */
  function WithRole(t: Toggle): (r: Toggle)
    ensures r.tagName == t.tagName && r.classes == t.classes
    ensures t.tagName == "a" ==> r.attributes == t.attributes["role" := "button"]
    ensures t.tagName != "a" ==> r == t
  {
    if t.tagName == "a" then t.(attributes := t.attributes["role" := "button"]) else t
  }

  /** Marking toggles as buttons never changes the items read from them. */
  lemma WithRoleKeepsItem(t: Toggle, parse: string -> Attrs)
    ensures ItemOf(WithRole(t), parse) == ItemOf(t, parse)
  {
    var t' := WithRole(t);
    assert "data-href" != "role" && "data-caption" != "role" && "data-srcset" != "role";
    assert "data-type" != "role" && "data-poster" != "role" && "data-alt" != "role" && "data-attrs" != "role";
    assert "href" != "role" && "type" != "role";
  }

  /** What the component asks of its panel. */
  datatype PanelCall = CreatePanel(items: seq<Item>) | ShowPanelAt(index: int) | HidePanel

  /** The calls of one `show`: a panel is created only when there is none yet. */
  function ShowCalls(existing: Option<seq<Item>>, items: seq<Item>, index: int): seq<PanelCall> {
    (if existing.None? then [CreatePanel(items)] else []) + [ShowPanelAt(index)]
  }

  /** A `show` while a panel exists reuses it, whatever the toggles now say. */
  lemma ShowReusesPanel(existing: seq<Item>, items: seq<Item>, index: int)
    ensures forall c :: c in ShowCalls(Some(existing), items, index) ==> !c.CreatePanel?
    ensures ShowCalls(None, items, index)[0] == CreatePanel(items)
  {
  }

  /**
   * The component. `panelItems` stands for its panel: absent when there is none,
   * otherwise the items the panel was created with; `log` records the calls made
   * to the panel.
   */
  class Lightbox {
    const parse: string -> Attrs
    const swipeThreshold: real
    var toggles: seq<Toggle>
    var panelItems: Option<seq<Item>>
    var log: seq<PanelCall>
    var mouseDownPos: Option<Point>
    var mouseUpPos: Option<Point>

    constructor (toggles: seq<Toggle>, parse: string -> Attrs)
      ensures this.toggles == toggles && this.parse == parse && swipeThreshold == SwipeThreshold
      ensures panelItems == None && log == []
      ensures mouseDownPos == None && mouseUpPos == None
    {
      this.toggles := toggles;
      this.parse := parse;
      swipeThreshold := SwipeThreshold;
      panelItems := None;
      log := [];
      mouseDownPos := None;
      mouseUpPos := None;
    }

    /** `show`: dedupes the toggles' items, finds the position, reuses or creates the panel, and shows it. */
    method Show(arg: ShowArg)
      modifies this`panelItems, this`log
      ensures var items := UniqueBySource(ItemsOf(toggles, parse));
              && panelItems == Some(old(panelItems).GetOr(items))
              && log == old(log) + ShowCalls(old(panelItems), items, ShowIndex(arg, items, parse))
    {
      var items := UniqueBySource(ItemsOf(toggles, parse));
      var index: int;
      match arg {
        case IndexArg(i) =>
          index := i;
        case ElementArg(el) =>
          var item := ToItem(el, parse);
          index := FindIndexBySource(items, item.source);
      }
      var existing := panelItems;
      if panelItems.None? {
        panelItems := Some(items);
        log := log + [CreatePanel(items)];
      }
      log := log + [ShowPanelAt(index)];
      assert log == old(log) + ShowCalls(existing, items, index);
    }

    /** `hide`: asks the panel to hide when there is one, and does nothing otherwise. */
    method Hide()
      modifies this`log
      ensures log == old(log) + (if panelItems.Some? then [HidePanel] else [])
    {
      if panelItems.Some? {
        log := log + [HidePanel];
      }
    }

    /** The panel's `hidden` event: the component forgets its panel. */
    method OnPanelHidden()
      modifies this`panelItems
      ensures panelItems == None
    {
      panelItems := None;
    }

    /** Removal from the page hides the panel. */
    method OnDisconnected()
      modifies this`log
      ensures log == old(log) + (if panelItems.Some? then [HidePanel] else [])
    {
      Hide();
    }

    /** The `toggles` watcher: hides the panel, then marks every `<a>` toggle as a button. */
    method OnTogglesChanged(found: seq<Toggle>)
      modifies this`toggles, this`log
      ensures log == old(log) + (if panelItems.Some? then [HidePanel] else [])
      ensures |toggles| == |found|
      ensures forall i :: 0 <= i < |found| ==> toggles[i] == WithRole(found[i])
    {
      Hide();
      var result := found;
      var i := 0;
      while i < |found|
        invariant 0 <= i <= |found| && |result| == |found|
        invariant forall j :: 0 <= j < |found| ==> result[j] == (if j < i then WithRole(found[j]) else found[j])
      {
        if found[i].tagName == "a" {
          result := result[i := found[i].(attributes := found[i].attributes["role" := "button"])];
        }
        i := i + 1;
      }
      toggles := result;
    }

    /** The delegated mousedown: records the position unless the toggle is disabled. */
    method OnMouseDown(target: Toggle, p: Point)
      modifies this`mouseDownPos
      ensures mouseDownPos == if DisabledClass in target.classes then old(mouseDownPos) else Some(p)
    {
      if DisabledClass !in target.classes {
        mouseDownPos := Some(p);
      }
    }

    /** The delegated mouseup: records the position unless the toggle is disabled. */
    method OnMouseUp(target: Toggle, p: Point)
      modifies this`mouseUpPos
      ensures mouseUpPos == if DisabledClass in target.classes then old(mouseUpPos) else Some(p)
    {
      if DisabledClass !in target.classes {
        mouseUpPos := Some(p);
      }
    }

    /**
     * The delegated click: opens the lightbox at the clicked toggle unless the
     * movement was a swipe. The recorded positions are kept for later clicks.
     */
    method OnClick(target: Toggle) returns (outcome: ClickOutcome)
      modifies this`panelItems, this`log
      ensures outcome == if DisabledClass in target.classes then NotDelegated
                         else ClickDecision(mouseDownPos, mouseUpPos, swipeThreshold)
      ensures outcome != Opened ==> panelItems == old(panelItems) && log == old(log)
      ensures outcome == Opened ==>
                var items := UniqueBySource(ItemsOf(toggles, parse));
                && panelItems == Some(old(panelItems).GetOr(items))
                && log == old(log) + ShowCalls(old(panelItems), items, ShowIndex(ElementArg(target), items, parse))
    {
      if DisabledClass in target.classes {
        return NotDelegated;
      }
      outcome := ClickDecision(mouseDownPos, mouseUpPos, swipeThreshold);
      if outcome == Opened {
        Show(ElementArg(target));
      }
    }
  }
}
