/**
 * The configuration middleware of middleware/config/config.js: a memo table of config
 * adapters keyed by store id, the flattening of an adapter's application, block and page
 * configuration into one ordered array of evaluator entries, and the handler that answers
 * `GET /_config…` with that array.
 */
module Config {
  import opened Js

  // ---------------------------------------------------------------------------------------------
  // Reading the adapter's data
  // ---------------------------------------------------------------------------------------------

  /** `v.k`: a property of an object; undefined for a missing one and for any other value. */
  function Member(v: Value, k: string): (r: Value)
    ensures !v.Obj? ==> r == Undefined
  {
    if v.Obj? then Get(v.props, k) else Undefined
  }

  /** Reading a property of undefined or null throws a TypeError; of anything else it does not. */
  predicate Readable(v: Value)
  {
    !v.Undefined? && !v.Null?
  }

  /** The values of the properties, in order. */
  function Vals(ps: seq<Prop>): (vs: seq<Value>)
    ensures |vs| == |ps|
    ensures forall i :: 0 <= i < |ps| ==> vs[i] == ps[i].val
  {
    seq(|ps|, i requires 0 <= i < |ps| => ps[i].val)
  }

  /** What the for-in loops of a page config walk: its gadgets and its page's region bindings. */
  function GadgetsOf(pageConfig: Value): seq<Prop>
  {
    ForIn(Member(pageConfig, "gadgets"))
  }

  function BindingsOf(pageConfig: Value): seq<Prop>
  {
    ForIn(Member(Member(pageConfig, "page"), "bindings"))
  }

  /**
   * A page config the flattening walks without a TypeError: the config itself, each of its
   * gadgets, its page and each of the page's bindings can be read from, and the page is not
   * NaN (whose JSON copy is null, which the deletes of the page entry cannot read from).
   */
  predicate WellFormedPage(pageConfig: Value)
  {
    Readable(pageConfig)
    && AllReadable(GadgetsOf(pageConfig))
    && Readable(Member(pageConfig, "page"))
    && AllReadable(BindingsOf(pageConfig))
    && !Member(pageConfig, "page").NaN?
  }

  /** Every property's value can be read from. */
  predicate AllReadable(ps: seq<Prop>)
  {
    Every(ps, Readable)
  }

  predicate WellFormedPages(pages: seq<Prop>)
  {
    Every(pages, WellFormedPage)
  }

  /** Every property's value passes `ok`, checked from the first to the last. */
  predicate Every(ps: seq<Prop>, ok: Value -> bool)
  {
    ps == [] || (Every(ps[..|ps| - 1], ok) && ok(ps[|ps| - 1].val))
  }

  lemma Associative<T>(a: seq<T>, b: seq<T>, c: seq<T>)
    ensures a + b + c == a + (b + c)
  {
  }

  /** One more page: its block follows, its gadgets are stored, and it must be well formed too. */
  lemma PagesSnoc(pages: seq<Prop>, i: nat)
    requires i < |pages|
    ensures PageEntries(pages[..i + 1]) == PageEntries(pages[..i]) + PageBlock(pages[i].key, pages[i].val)
    ensures GadgetCollection(pages[..i + 1]) == Collect(GadgetCollection(pages[..i]), Slots(GadgetsOf(pages[i].val)))
    ensures WellFormedPages(pages[..i + 1]) == (WellFormedPages(pages[..i]) && WellFormedPage(pages[i].val))
  {
    assert pages[..i + 1][..i] == pages[..i];
  }

  /** A walk that fails on one property fails on every longer list. */
  lemma {:induction false} EveryPrefix(ps: seq<Prop>, ok: Value -> bool, k: nat)
    requires k <= |ps| && Every(ps, ok)
    ensures Every(ps[..k], ok)
    decreases |ps| - k
  {
    if k < |ps| {
      EveryPrefix(ps[..|ps| - 1], ok, k);
      assert ps[..|ps| - 1][..k] == ps[..k];
    } else {
      assert ps[..k] == ps;
    }
  }

  /** One more property checked. */
  lemma EverySnoc(ps: seq<Prop>, ok: Value -> bool, i: nat)
    requires i < |ps|
    ensures Every(ps[..i + 1], ok) == (Every(ps[..i], ok) && ok(ps[i].val))
  {
    assert ps[..i + 1][..i] == ps[..i];
  }

  /** Every property passes exactly when each one does. */
  lemma {:induction false} EveryEach(ps: seq<Prop>, ok: Value -> bool)
    ensures Every(ps, ok) <==> forall i :: 0 <= i < |ps| ==> ok(ps[i].val)
  {
    if ps != [] {
      var init := ps[..|ps| - 1];
      EveryEach(init, ok);
      assert forall i :: 0 <= i < |init| ==> init[i] == ps[i];
    }
  }

  // ---------------------------------------------------------------------------------------------
  // The entries
  // ---------------------------------------------------------------------------------------------

  /** The `evaluator` of an entry. */
  function Evaluator(entry: Value): Value
  {
    Member(entry, "evaluator")
  }

  /** An entry whose first property is `evaluator: name`. */
  predicate EvaluatedBy(entry: Value, name: string)
  {
    entry.Obj? && |entry.props| > 0 && entry.props[0] == Prop("evaluator", Str(name))
  }

  /** Such an entry's evaluator is that name. */
  lemma EvaluatorOf(entry: Value, name: string)
    requires EvaluatedBy(entry, name)
    ensures Evaluator(entry) == Str(name)
  {
  }

  function AppEntry(appConfig: Value): Value
  {
    Obj([Prop("evaluator", Str("application")),
         Prop("config", Obj([Prop("application", appConfig)]))])
  }

  /** The application entry, present only when the application config is truthy. */
  function AppEntries(appConfig: Value): seq<Value>
  {
    if Truthy(appConfig) then [AppEntry(appConfig)] else []
  }

  /** The collection key of a gadget: its type as a string, `_`, its key. */
  function GadgetName(gadgetKey: string, gadgetConfig: Value): string
  {
    ToString(Member(gadgetConfig, "type")) + "_" + gadgetKey
  }

  function GadgetEntry(gadgetKey: string, gadgetConfig: Value): Value
  {
    var gadgetType := Member(gadgetConfig, "type");
    Obj([Prop("evaluator", Str("gadget")),
         Prop("condition", Obj([Prop("gadgetType", gadgetType), Prop("gadget", Str(gadgetKey))])),
         Prop("config", Obj([Prop("gadgets", Obj([Prop(ToString(gadgetType),
           Obj([Prop(gadgetKey, Member(gadgetConfig, "config"))]))]))]))])
  }

  /** The entry binding one region of a page to a gadget. */
  function RegionEntry(pageKey: string, region: string, binding: Value): Value
  {
    Obj([Prop("evaluator", Str("page")),
         Prop("condition", Str(pageKey)),
         Prop("config", Obj([Prop("pages", Obj([Prop(pageKey, Obj([Prop("regions", Obj([Prop(region,
           Obj([Prop("gadgetType", Member(binding, "type")),
                Prop("gadget", Member(binding, "key"))]))]))]))]))]))])
  }

  /** The page as its entry carries it: a JSON copy with `bindings` and `gadgets` deleted. */
  function StrippedPage(page: Value): Value
  {
    var copy := JsonCopy(page);
    if copy.Obj? then Obj(Delete(Delete(copy.props, "bindings"), "gadgets")) else copy
  }

  function PageEntry(pageKey: string, page: Value): Value
  {
    Obj([Prop("evaluator", Str("page")),
         Prop("condition", Str(pageKey)),
         Prop("config", Obj([Prop("pages", Obj([Prop(pageKey, StrippedPage(page))]))]))])
  }

  function RegionEntries(pageKey: string, bindings: seq<Prop>): (es: seq<Value>)
    ensures |es| == |bindings|
  {
    seq(|bindings|, i requires 0 <= i < |bindings| =>
      RegionEntry(pageKey, bindings[i].key, bindings[i].val))
  }

  /** What one page contributes in place: its region entries, then its page entry. */
  function PageBlock(pageKey: string, pageConfig: Value): seq<Value>
  {
    RegionEntries(pageKey, BindingsOf(pageConfig)) + [PageEntry(pageKey, Member(pageConfig, "page"))]
  }

  function PageEntries(pages: seq<Prop>): seq<Value>
  {
    if pages == [] then []
    else PageEntries(pages[..|pages| - 1]) + PageBlock(pages[|pages| - 1].key, pages[|pages| - 1].val)
  }

  /** A gadget as the collection stores it: the entry built from it, under its name. */
  datatype Slot = Slot(name: string, entry: Value)

  function SlotOf(gadget: Prop): Slot
  {
    Slot(GadgetName(gadget.key, gadget.val), GadgetEntry(gadget.key, gadget.val))
  }

  function Slots(gadgets: seq<Prop>): (ss: seq<Slot>)
    ensures |ss| == |gadgets|
  {
    seq(|gadgets|, i requires 0 <= i < |gadgets| => SlotOf(gadgets[i]))
  }

  /** The gadget collection after storing each slot's entry under its name, in order. */
  function Collect(collection: seq<Prop>, slots: seq<Slot>): seq<Prop>
  {
    if slots == [] then collection
    else
      var s := slots[|slots| - 1];
      Put(Collect(collection, slots[..|slots| - 1]), s.name, s.entry)
  }

  /** The gadget collection after walking every page. */
  function GadgetCollection(pages: seq<Prop>): seq<Prop>
  {
    if pages == [] then []
    else Collect(GadgetCollection(pages[..|pages| - 1]), Slots(GadgetsOf(pages[|pages| - 1].val)))
  }

  /** The names of `slots`, in order. */
  function Names(slots: seq<Slot>): (ns: seq<string>)
    ensures |ns| == |slots|
  {
    if slots == [] then [] else Names(slots[..|slots| - 1]) + [slots[|slots| - 1].name]
  }

  /** The names of every page's gadgets, page by page. */
  function AllNames(pages: seq<Prop>): seq<string>
  {
    if pages == [] then []
    else AllNames(pages[..|pages| - 1]) + Names(Slots(GadgetsOf(pages[|pages| - 1].val)))
  }

  /** The adapter's data as its three loaders call back with it. */
  datatype Adapter = Adapter(appConfig: Value, blockConfigs: Value, pageConfigs: Value)

  /** The flattened array: the application entry, the blocks, every page's region and page
      entries, then the collected gadget entries. */
  function Assembled(appConfig: Value, blocks: seq<Prop>, pages: seq<Prop>): seq<Value>
  {
    AppEntries(appConfig) + Vals(blocks) + PageEntries(pages) + Vals(GadgetCollection(pages))
  }

  /**
   * The array handleConfigRequest calls back with, or None when walking the page configs throws,
   * which is when one of the page configs is not well formed.
   */
  function ConfigArray(adapter: Adapter): (r: Option<seq<Value>>)
    ensures var pages := ForIn(adapter.pageConfigs);
      r.None? <==> exists i :: 0 <= i < |pages| && !WellFormedPage(pages[i].val)
  {
    var pages := ForIn(adapter.pageConfigs);
    EveryEach(pages, WellFormedPage);
    if !WellFormedPages(pages) then None
    else Some(Assembled(adapter.appConfig, ForIn(adapter.blockConfigs), pages))
  }

  // ---------------------------------------------------------------------------------------------
  // Properties of the flattening
  // ---------------------------------------------------------------------------------------------

  /** Storing one more slot is one more property assignment. */
  lemma CollectSnoc(collection: seq<Prop>, slots: seq<Slot>, i: nat)
    requires i < |slots|
    ensures Collect(collection, slots[..i + 1]) == Put(Collect(collection, slots[..i]), slots[i].name, slots[i].entry)
  {
    assert slots[..i + 1][..i] == slots[..i];
  }

  /** Storing slots keeps the collection's names distinct, and its names are the old ones and theirs. */
  lemma {:induction false} CollectKeys(collection: seq<Prop>, slots: seq<Slot>)
    requires DistinctKeys(collection)
    ensures DistinctKeys(Collect(collection, slots))
    ensures forall k :: k in Keys(Collect(collection, slots)) <==> k in Keys(collection) || k in Names(slots)
  {
    if slots != [] {
      var init := slots[..|slots| - 1];
      var s := slots[|slots| - 1];
      CollectKeys(collection, init);
      PutGet(Collect(collection, init), s.name, s.entry);
      PutKeepsDistinct(Collect(collection, init), s.name, s.entry);
    }
  }

  /** There is exactly one gadget entry per distinct name across all pages. */
  lemma {:induction false} GadgetCollectionKeys(pages: seq<Prop>)
    ensures DistinctKeys(GadgetCollection(pages))
    ensures forall k :: k in Keys(GadgetCollection(pages)) <==> k in AllNames(pages)
  {
    if pages != [] {
      var init := pages[..|pages| - 1];
      GadgetCollectionKeys(init);
      CollectKeys(GadgetCollection(init), Slots(GadgetsOf(pages[|pages| - 1].val)));
    }
  }

  /** A name no stored slot carries keeps its old entry. */
  lemma {:induction false} CollectUntouched(collection: seq<Prop>, slots: seq<Slot>, k: string)
    requires k !in Names(slots)
    ensures Get(Collect(collection, slots), k) == Get(collection, k)
  {
    if slots != [] {
      var init := slots[..|slots| - 1];
      var s := slots[|slots| - 1];
      CollectUntouched(collection, init, k);
      PutOther(Collect(collection, init), s.name, s.entry, k);
    }
  }

  /** The entry stored under a name is that of the last slot with that name. */
  lemma {:induction false} CollectLastWins(collection: seq<Prop>, slots: seq<Slot>, i: nat)
    requires i < |slots|
    requires slots[i].name !in Names(slots[i + 1..])
    ensures Get(Collect(collection, slots), slots[i].name) == slots[i].entry
  {
    var init := slots[..|slots| - 1];
    var s := slots[|slots| - 1];
    if i < |slots| - 1 {
      assert slots[i + 1..][..|slots| - i - 2] == init[i + 1..];
      assert init[i] == slots[i];
      CollectLastWins(collection, init, i);
      PutOther(Collect(collection, init), s.name, s.entry, slots[i].name);
    } else {
      PutGet(Collect(collection, init), s.name, s.entry);
    }
  }

  /**
   * Across pages: the entry stored under the name of gadget `i` of page `p` is that gadget's,
   * when no later gadget of that page and no gadget of a later page has the same name.
   */
  lemma {:induction false} GadgetCollectionLastWins(pages: seq<Prop>, p: nat, i: nat)
    requires p < |pages| && i < |GadgetsOf(pages[p].val)|
    requires var slots := Slots(GadgetsOf(pages[p].val));
      slots[i].name !in Names(slots[i + 1..])
      && forall q :: p < q < |pages| ==> slots[i].name !in Names(Slots(GadgetsOf(pages[q].val)))
    ensures var slot := Slots(GadgetsOf(pages[p].val))[i];
      Get(GadgetCollection(pages), slot.name) == slot.entry
    decreases |pages|
  {
    var init := pages[..|pages| - 1];
    var slots := Slots(GadgetsOf(pages[p].val));
    if p == |pages| - 1 {
      CollectLastWins(GadgetCollection(init), slots, i);
    } else {
      assert init[p] == pages[p];
      forall q | p < q < |init| ensures slots[i].name !in Names(Slots(GadgetsOf(init[q].val))) {
        assert init[q] == pages[q];
      }
      GadgetCollectionLastWins(init, p, i);
      CollectUntouched(GadgetCollection(init), Slots(GadgetsOf(pages[|pages| - 1].val)), slots[i].name);
    }
  }

  /** Each page contributes one entry per region binding and then its page entry. */
  lemma PageEntriesCount(pages: seq<Prop>)
    ensures |PageEntries(pages)| >= |pages|
    ensures pages != [] ==> PageEntries(pages)[|PageEntries(pages)| - 1]
                            == PageEntry(pages[|pages| - 1].key, Member(pages[|pages| - 1].val, "page"))
  {
  }

  /** A page's region entries and its page entry all have evaluator "page". */
  lemma PageBlockArePages(pageKey: string, pageConfig: Value)
    ensures forall e :: e in PageBlock(pageKey, pageConfig) ==> EvaluatedBy(e, "page")
  {
    var regions := RegionEntries(pageKey, BindingsOf(pageConfig));
    forall e | e in PageBlock(pageKey, pageConfig) ensures EvaluatedBy(e, "page") {
      if e in regions {
        var i :| 0 <= i < |regions| && regions[i] == e;
      }
    }
  }

  /** Every region and page entry has evaluator "page". */
  lemma {:induction false} PageEntriesArePages(pages: seq<Prop>)
    ensures forall e :: e in PageEntries(pages) ==> EvaluatedBy(e, "page")
  {
    if pages != [] {
      PageEntriesArePages(pages[..|pages| - 1]);
      PageBlockArePages(pages[|pages| - 1].key, pages[|pages| - 1].val);
    }
  }

  /** Every entry built from a gadget has evaluator "gadget". */
  lemma SlotsAreGadgets(gadgets: seq<Prop>)
    ensures forall s :: s in Slots(gadgets) ==> EvaluatedBy(s.entry, "gadget")
  {
    forall s | s in Slots(gadgets) ensures EvaluatedBy(s.entry, "gadget") {
      var i :| 0 <= i < |gadgets| && Slots(gadgets)[i] == s;
    }
  }

  /** Storing gadget entries keeps every entry of the collection a gadget entry. */
  lemma {:induction false} CollectedAreGadgets(collection: seq<Prop>, slots: seq<Slot>)
    requires forall p :: p in collection ==> EvaluatedBy(p.val, "gadget")
    requires forall s :: s in slots ==> EvaluatedBy(s.entry, "gadget")
    ensures forall p :: p in Collect(collection, slots) ==> EvaluatedBy(p.val, "gadget")
  {
    if slots != [] {
      var init := slots[..|slots| - 1];
      var s := slots[|slots| - 1];
      CollectedAreGadgets(collection, init);
      PutValues(Collect(collection, init), s.name, s.entry);
    }
  }

  /** After `o[k] = v` every property holds either an old value or v. */
  lemma {:induction false} PutValues(ps: seq<Prop>, k: string, v: Value)
    ensures forall p :: p in Put(ps, k, v) ==> p in ps || p.val == v
  {
    if ps != [] && ps[0].key != k {
      PutValues(ps[1..], k, v);
    }
  }

  lemma {:induction false} GadgetCollectionAreGadgets(pages: seq<Prop>)
    ensures forall p :: p in GadgetCollection(pages) ==> EvaluatedBy(p.val, "gadget")
  {
    if pages != [] {
      GadgetCollectionAreGadgets(pages[..|pages| - 1]);
      SlotsAreGadgets(GadgetsOf(pages[|pages| - 1].val));
      CollectedAreGadgets(GadgetCollection(pages[..|pages| - 1]), Slots(GadgetsOf(pages[|pages| - 1].val)));
    }
  }

  /** The four parts of a concatenation, read back by position. */
  lemma Parts<T>(a: seq<T>, b: seq<T>, c: seq<T>, d: seq<T>)
    ensures var s := a + b + c + d;
      && s[..|a|] == a && s[|a|..|a| + |b|] == b
      && s[|a| + |b|..|a| + |b| + |c|] == c && s[|a| + |b| + |c|..] == d
  {
  }

  lemma AssembledLayout(appConfig: Value, blocks: seq<Prop>, pages: seq<Prop>)
    ensures var arr := Assembled(appConfig, blocks, pages);
      var a := if Truthy(appConfig) then 1 else 0;
      var p := a + |blocks| + |PageEntries(pages)|;
      && p <= |arr|
      && (Truthy(appConfig) ==> arr[0] == AppEntry(appConfig))
      && arr[a..a + |blocks|] == Vals(blocks)
      && (forall e :: e in arr[a + |blocks|..p] ==> EvaluatedBy(e, "page"))
      && (forall e :: e in arr[p..] ==> EvaluatedBy(e, "gadget"))
  {
    Parts(AppEntries(appConfig), Vals(blocks), PageEntries(pages), Vals(GadgetCollection(pages)));
    PageEntriesArePages(pages);
    CollectedValuesAreGadgets(pages);
  }

  /** The values of the gadget collection are all gadget entries. */
  lemma CollectedValuesAreGadgets(pages: seq<Prop>)
    ensures forall e :: e in Vals(GadgetCollection(pages)) ==> EvaluatedBy(e, "gadget")
  {
    var gadgets := GadgetCollection(pages);
    GadgetCollectionAreGadgets(pages);
    forall e | e in Vals(gadgets) ensures EvaluatedBy(e, "gadget") {
      var i :| 0 <= i < |gadgets| && Vals(gadgets)[i] == e;
      assert gadgets[i] in gadgets;
    }
  }

  /**
   * The layout of the array: the application entry first when the application config is
   * truthy, then the blocks in order, then page entries only, then gadget entries only.
   */
  lemma ConfigOrder(adapter: Adapter)
    requires ConfigArray(adapter).Some?
    ensures var arr := ConfigArray(adapter).value;
      var a := if Truthy(adapter.appConfig) then 1 else 0;
      var blocks := ForIn(adapter.blockConfigs);
      var p := a + |blocks| + |PageEntries(ForIn(adapter.pageConfigs))|;
      && p <= |arr|
      && (Truthy(adapter.appConfig) ==> arr[0] == AppEntry(adapter.appConfig))
      && arr[a..a + |blocks|] == Vals(blocks)
      && (forall e :: e in arr[a + |blocks|..p] ==> EvaluatedBy(e, "page"))
      && (forall e :: e in arr[p..] ==> EvaluatedBy(e, "gadget"))
  {
    AssembledLayout(adapter.appConfig, ForIn(adapter.blockConfigs), ForIn(adapter.pageConfigs));
  }

  /** The page entry's copy has neither `bindings` nor `gadgets`, and keeps every other property of the copy. */
  lemma StrippedPageProps(page: Value)
    requires JsonCopy(page).Obj?
    ensures StrippedPage(page).Obj?
    ensures "bindings" !in Keys(StrippedPage(page).props) && "gadgets" !in Keys(StrippedPage(page).props)
    ensures forall p :: p in StrippedPage(page).props <==>
      p in JsonCopy(page).props && p.key != "bindings" && p.key != "gadgets"
  {
    var ps := StrippedPage(page).props;
    forall i | 0 <= i < |ps| ensures Keys(ps)[i] != "bindings" && Keys(ps)[i] != "gadgets" {
      assert ps[i] in ps;
    }
  }

  /** A JSON-safe page object reaches its entry unchanged apart from the two deleted properties. */
  lemma StrippedSafePage(page: Value)
    requires page.Obj? && JsonSafe(page)
    ensures StrippedPage(page) == Obj(Delete(Delete(page.props, "bindings"), "gadgets"))
  {
    JsonCopySafe(page);
  }

  // ---------------------------------------------------------------------------------------------
  // Building the array step by step
  // ---------------------------------------------------------------------------------------------

  /** Appends the values of the properties in for-in order: the block configs, the collected gadgets. */
  method PushValues(entries: seq<Value>, props: seq<Prop>) returns (r: seq<Value>)
    ensures r == entries + Vals(props)
  {
    r := entries;
    for i := 0 to |props|
      invariant r == entries + Vals(props[..i])
    {
      assert Vals(props[..i + 1]) == Vals(props[..i]) + [props[i].val];
      r := r + [props[i].val];
    }
    assert props[..|props|] == props;
  }

  /** Stores a page's gadgets in the collection; false when one of them cannot be read. */
  method CollectGadgets(collection: seq<Prop>, gadgets: seq<Prop>) returns (ok: bool, r: seq<Prop>)
    ensures ok == AllReadable(gadgets)
    ensures ok ==> r == Collect(collection, Slots(gadgets))
  {
    r := collection;
    for i := 0 to |gadgets|
      invariant AllReadable(gadgets[..i])
      invariant r == Collect(collection, Slots(gadgets)[..i])
    {
      EverySnoc(gadgets, Readable, i);
      if !Readable(gadgets[i].val) {
        if AllReadable(gadgets) {
          EveryPrefix(gadgets, Readable, i + 1);
        }
        return false, r;
      }
      r := StoreGadget(collection, gadgets, i, r);
    }
    assert gadgets[..|gadgets|] == gadgets;
    assert Slots(gadgets)[..|gadgets|] == Slots(gadgets);
    ok := true;
  }

  /** `gadgetCollection[type + "_" + key] = g` for gadget `i`. */
  method StoreGadget(collection: seq<Prop>, gadgets: seq<Prop>, i: nat, r: seq<Prop>) returns (r': seq<Prop>)
    requires i < |gadgets| && r == Collect(collection, Slots(gadgets)[..i])
    ensures r' == Collect(collection, Slots(gadgets)[..i + 1])
  {
    var gadget := gadgets[i];
    var name := ToString(Member(gadget.val, "type")) + "_" + gadget.key;
    CollectSnoc(collection, Slots(gadgets), i);
    r' := Put(r, name, GadgetEntry(gadget.key, gadget.val));
  }

  /** Appends one region entry per binding; false when a binding cannot be read. */
  method PushRegions(entries: seq<Value>, pageKey: string, bindings: seq<Prop>) returns (ok: bool, r: seq<Value>)
    ensures ok == AllReadable(bindings)
    ensures ok ==> r == entries + RegionEntries(pageKey, bindings)
  {
    r := entries;
    for i := 0 to |bindings|
      invariant AllReadable(bindings[..i])
      invariant r == entries + RegionEntries(pageKey, bindings[..i])
    {
      EverySnoc(bindings, Readable, i);
      if !Readable(bindings[i].val) {
        if AllReadable(bindings) {
          EveryPrefix(bindings, Readable, i + 1);
        }
        return false, r;
      }
      assert RegionEntries(pageKey, bindings[..i + 1])
          == RegionEntries(pageKey, bindings[..i]) + [RegionEntry(pageKey, bindings[i].key, bindings[i].val)];
      r := r + [RegionEntry(pageKey, bindings[i].key, bindings[i].val)];
    }
    assert bindings[..|bindings|] == bindings;
    ok := true;
  }

  /** One pass of the page loop; false when reading the page config throws. */
  method WalkPage(entries: seq<Value>, collection: seq<Prop>, pageKey: string, pageConfig: Value)
    returns (ok: bool, entries': seq<Value>, collection': seq<Prop>)
    ensures ok == WellFormedPage(pageConfig)
    ensures ok ==> entries' == entries + PageBlock(pageKey, pageConfig)
    ensures ok ==> collection' == Collect(collection, Slots(GadgetsOf(pageConfig)))
  {
    entries', collection' := entries, collection;
    if !Readable(pageConfig) {
      return false, entries', collection';
    }
    ok, collection' := CollectGadgets(collection, GadgetsOf(pageConfig));
    if !ok {
      return;
    }
    var page := Member(pageConfig, "page");
    if !Readable(page) {
      return false, entries', collection';
    }
    ok, entries' := PushRegions(entries, pageKey, BindingsOf(pageConfig));
    if !ok {
      return;
    }
    if page.NaN? {
      return false, entries', collection';
    }
    entries' := entries' + [PageEntry(pageKey, page)];
  }

  /** Walks the pages in order; None when one of them throws. */
  method WalkPages(prefix: seq<Value>, pages: seq<Prop>) returns (r: Option<seq<Value>>)
    ensures WellFormedPages(pages) ==> r == Some(prefix + PageEntries(pages) + Vals(GadgetCollection(pages)))
    ensures !WellFormedPages(pages) ==> r == None
  {
    var entries := prefix;
    var collection: seq<Prop> := [];
    for i := 0 to |pages|
      invariant WellFormedPages(pages[..i])
      invariant entries == prefix + PageEntries(pages[..i])
      invariant collection == GadgetCollection(pages[..i])
    {
      var ok, entries', collection' := WalkPage(entries, collection, pages[i].key, pages[i].val);
      PagesSnoc(pages, i);
      if !ok {
        if WellFormedPages(pages) {
          EveryPrefix(pages, WellFormedPage, i + 1);
        }
        return None;
      }
      Associative(prefix, PageEntries(pages[..i]), PageBlock(pages[i].key, pages[i].val));
      entries, collection := entries', collection';
    }
    assert pages[..|pages|] == pages;
    entries := PushValues(entries, collection);
    r := Some(entries);
  }

  /** The body of the three loader callbacks of handleConfigRequest. */
  method Flatten(adapter: Adapter) returns (r: Option<seq<Value>>)
    ensures r == ConfigArray(adapter)
  {
    var entries: seq<Value> := [];
    if Truthy(adapter.appConfig) {
      entries := entries + [AppEntry(adapter.appConfig)];
    }
    assert entries == AppEntries(adapter.appConfig);
    entries := PushValues(entries, ForIn(adapter.blockConfigs));
    r := WalkPages(entries, ForIn(adapter.pageConfigs));
  }

  // ---------------------------------------------------------------------------------------------
  // The adapter cache and the handler
  // ---------------------------------------------------------------------------------------------

  /** What the adapter made for a store calls back with from `init`. */
  datatype Init = Init(err: Value, adapter: Adapter)

  /** A config store: its id and what initialising an adapter for it yields. */
  datatype ConfigStore = ConfigStore(id: string, init: Init)

  datatype Request = Request(httpMethod: string, url: string)

  /** How the handler finishes: passes to `next()`, sends the array, or throws. */
  datatype Outcome = Next | Sent(body: Value) | Crashed

  /** The requests the handler answers: method GET in any case, URL starting with `/_config`. */
  predicate Claims(req: Request)
  {
    ToLowerAscii(req.httpMethod) == "get" && StartsWith(req.url, "/_config")
  }

  /** The method test accepts exactly the spellings of GET with any mix of cases. */
  lemma ClaimsMethod(m: string)
    ensures ToLowerAscii(m) == "get" <==> |m| == 3 && m[0] in "gG" && m[1] in "eE" && m[2] in "tT"
  {
    if |m| == 3 && ToLowerAscii(m) == "get" {
      assert ToLowerAscii(m)[0] == 'g' && ToLowerAscii(m)[1] == 'e' && ToLowerAscii(m)[2] == 't';
    }
  }

  class ConfigMiddleware {
    /** CACHED_ADAPTERS: the adapter bound for each store id. */
    var cachedAdapters: map<string, Adapter>

    constructor ()
      ensures cachedAdapters == map[]
    {
      cachedAdapters := map[];
    }

    /**
     * bindConfigAdapter: a cached adapter is returned without initialising one; otherwise the
     * store's adapter is initialised, cached when that succeeds, and the cache is left alone
     * when it fails. `initialised` tells whether `init` ran.
     */
    method BindConfigAdapter(store: ConfigStore) returns (err: Option<Value>, adapter: Option<Adapter>, initialised: bool)
      modifies this
      ensures store.id in old(cachedAdapters) ==>
        !initialised && err.None? && adapter == Some(old(cachedAdapters)[store.id])
        && cachedAdapters == old(cachedAdapters)
      ensures store.id !in old(cachedAdapters) && Truthy(store.init.err) ==>
        initialised && err == Some(store.init.err) && adapter.None?
        && cachedAdapters == old(cachedAdapters)
      ensures store.id !in old(cachedAdapters) && !Truthy(store.init.err) ==>
        initialised && err.None? && adapter == Some(store.init.adapter)
        && cachedAdapters == old(cachedAdapters)[store.id := store.init.adapter]
    {
      if store.id in cachedAdapters {
        return None, Some(cachedAdapters[store.id]), false;
      }
      initialised := true;
      if Truthy(store.init.err) {
        return Some(store.init.err), None, initialised;
      }
      cachedAdapters := cachedAdapters[store.id := store.init.adapter];
      err, adapter := None, Some(store.init.adapter);
    }

    /**
     * handleConfigRequest: binds the store's adapter and flattens its data. A failed bind
     * throws, since its message reads an undefined variable.
     */
    method HandleConfigRequest(store: ConfigStore) returns (r: Option<seq<Value>>)
      modifies this
      ensures var bound := if store.id in old(cachedAdapters) then Some(old(cachedAdapters)[store.id])
                           else if Truthy(store.init.err) then None
                           else Some(store.init.adapter);
        r == if bound.None? then None else ConfigArray(bound.value)
      ensures store.id !in old(cachedAdapters) && !Truthy(store.init.err) ==>
        cachedAdapters == old(cachedAdapters)[store.id := store.init.adapter]
      ensures store.id in old(cachedAdapters) || Truthy(store.init.err) ==>
        cachedAdapters == old(cachedAdapters)
    {
      var err, adapter, _ := BindConfigAdapter(store);
      if err.Some? {
        return None;
      }
      r := Flatten(adapter.value);
    }

    /** r.handler: answers a claimed request with the array; every other request goes to next(). */
    method Handler(req: Request, store: ConfigStore) returns (outcome: Outcome)
      modifies this
      ensures outcome.Next? <==> !Claims(req)
      ensures !Claims(req) ==> cachedAdapters == old(cachedAdapters)
      ensures Claims(req) ==>
        var bound := if store.id in old(cachedAdapters) then Some(old(cachedAdapters)[store.id])
                     else if Truthy(store.init.err) then None
                     else Some(store.init.adapter);
        var arr := if bound.None? then None else ConfigArray(bound.value);
        outcome == if arr.None? then Crashed else Sent(Arr(arr.value))
      ensures Claims(req) && store.id !in old(cachedAdapters) && !Truthy(store.init.err) ==>
        cachedAdapters == old(cachedAdapters)[store.id := store.init.adapter]
      ensures Claims(req) && (store.id in old(cachedAdapters) || Truthy(store.init.err)) ==>
        cachedAdapters == old(cachedAdapters)
    {
      if ToLowerAscii(req.httpMethod) == "get" && StartsWith(req.url, "/_config") {
        var arr := HandleConfigRequest(store);
        if arr.None? {
          return Crashed;
        }
        return Sent(Arr(arr.value));
      }
      return Next;
    }

    /**
     * The adapter is bound once per store id: after a request whose bind succeeded, a request
     * for a store with the same id is answered from the cached adapter, whatever its own
     * `init` would now call back with.
     */
    method RequestTwice(first: ConfigStore, second: ConfigStore) returns (r1: Option<seq<Value>>, r2: Option<seq<Value>>)
      requires first.id == second.id
      modifies this
      ensures first.id in old(cachedAdapters) || !Truthy(first.init.err) ==> r2 == r1
      ensures first.id !in old(cachedAdapters) && !Truthy(first.init.err) ==>
        r2 == ConfigArray(first.init.adapter)
      ensures first.id !in old(cachedAdapters) && Truthy(first.init.err) ==>
        r1.None? && r2 == if Truthy(second.init.err) then None else ConfigArray(second.init.adapter)
      ensures first.id in old(cachedAdapters) ==> cachedAdapters == old(cachedAdapters)
      ensures first.id !in old(cachedAdapters) && !Truthy(first.init.err) ==>
        cachedAdapters == old(cachedAdapters)[first.id := first.init.adapter]
      ensures first.id !in old(cachedAdapters) && Truthy(first.init.err) ==>
        cachedAdapters == if Truthy(second.init.err) then old(cachedAdapters)
                          else old(cachedAdapters)[first.id := second.init.adapter]
    {
      r1 := HandleConfigRequest(first);
      r2 := HandleConfigRequest(second);
    }
  }
}
