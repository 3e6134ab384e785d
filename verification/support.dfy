/**
 * The helpers behind the dust fragment tags (duster/support.js): resolving the requirement
 * expressions, dropping falsy requirements, and the read and populate paths of the fragment
 * render cache.
 *
 * Collaborators whose code is not part of this model are parameters: the template evaluator
 * (`dust.renderSource`), the cache-key function (`util.generateFragmentCacheKey`), the content
 * store (`util.safeReadStream`, `contentStore.writeFile`) and the rendition marker
 * (`renditions.markRendition`).
 */
module DusterSupport {
  import opened Js

  // ---------------------------------------------------------------------------------------------
  // resolveVariables
  // ---------------------------------------------------------------------------------------------

  /**
   * What `dust.renderSource(expr, context, cb)` hands its callback: `Rendered` stands for a
   * falsy `err` with the output text, `RenderFailed` for a truthy `err`.
   */
  datatype Rendering = Rendered(text: string) | RenderFailed(error: Value)

  /** The pair `(err, resolvedVariables)` that resolveVariables hands its callback. */
  datatype Resolution = Resolution(error: Option<Value>, values: Option<seq<string>>)

  /**
   * The position of the first expression that fails to render, or the number of expressions
   * when all of them render.
   */
  function FirstFailure(exprs: seq<string>, render: string -> Rendering): (k: nat)
    ensures k <= |exprs|
    ensures forall i :: 0 <= i < k ==> render(exprs[i]).Rendered?
    ensures k < |exprs| ==> render(exprs[k]).RenderFailed?
  {
    if exprs == [] then 0
    else if render(exprs[0]).RenderFailed? then 0
    else 1 + FirstFailure(exprs[1..], render)
  }

  /** The trimmed outputs of expressions that all render, in order. */
  function Resolved(exprs: seq<string>, render: string -> Rendering): (vs: seq<string>)
    requires forall i :: 0 <= i < |exprs| ==> render(exprs[i]).Rendered?
    ensures |vs| == |exprs|
  {
    if exprs == [] then []
    else Resolved(exprs[..|exprs| - 1], render) + [Trim(render(exprs[|exprs| - 1]).text)]
  }

  /** Each resolved value is the trimmed output of its own expression. */
  lemma {:induction false} ResolvedAt(exprs: seq<string>, render: string -> Rendering, i: nat)
    requires forall j :: 0 <= j < |exprs| ==> render(exprs[j]).Rendered?
    requires i < |exprs|
    ensures Resolved(exprs, render)[i] == Trim(render(exprs[i]).text)
  {
    var init := exprs[..|exprs| - 1];
    if i < |init| {
      ResolvedAt(init, render, i);
    }
  }

  /**
   * resolveVariables: renders the expressions one after the other, trimming each result, and
   * stops at the first failure. `evaluated` counts the calls of the evaluator.
   */
  method ResolveVariables(variables: Option<seq<string>>, render: string -> Rendering)
    returns (r: Resolution, evaluated: nat)
    ensures variables.None? ==> r == Resolution(None, None) && evaluated == 0
    ensures variables.Some? ==>
      var exprs := variables.value;
      var k := FirstFailure(exprs, render);
      && r.values == Some(Resolved(exprs[..k], render))
      && (r.error.None? <==> k == |exprs|)
      && (k < |exprs| ==> r.error == Some(render(exprs[k]).error) && evaluated == k + 1)
      && (k == |exprs| ==> evaluated == |exprs|)
  {
    if variables.None? {
      return Resolution(None, None), 0;
    }
    var exprs := variables.value;
    if |exprs| == 0 {
      return Resolution(None, Some([])), 0;
    }
    var resolved: seq<string> := [];
    evaluated := 0;
    while evaluated < |exprs|
      invariant evaluated <= FirstFailure(exprs, render)
      invariant resolved == Resolved(exprs[..evaluated], render)
    {
      var outcome := render(exprs[evaluated]);
      FirstFailureAt(exprs, render, evaluated);
      if outcome.RenderFailed? {
        return Resolution(Some(outcome.error), Some(resolved)), evaluated + 1;
      }
      assert exprs[..evaluated + 1][..evaluated] == exprs[..evaluated];
      resolved := resolved + [Trim(outcome.text)];
      evaluated := evaluated + 1;
    }
    assert exprs[..evaluated] == exprs;
    r := Resolution(None, Some(resolved));
  }

  /** Past a run of successes, the next expression fails exactly when it is the first failure. */
  lemma FirstFailureAt(exprs: seq<string>, render: string -> Rendering, k: nat)
    requires k < |exprs| && k <= FirstFailure(exprs, render)
    ensures render(exprs[k]).RenderFailed? <==> FirstFailure(exprs, render) == k
  {
  }

  // ---------------------------------------------------------------------------------------------
  // buildRequirements
  // ---------------------------------------------------------------------------------------------

  /** The requirements whose value is truthy, in their order. */
  function TruthyProps(ps: seq<Prop>): (r: seq<Prop>)
    ensures forall p :: p in r <==> p in ps && Truthy(p.val)
  {
    Filter(ps, (p: Prop) => Truthy(p.val))
  }

  /** The names holding a falsy value, in order: what the first loop of buildRequirements collects. */
  function FalsyKeys(ps: seq<Prop>): seq<string>
  {
    if ps == [] then []
    else FalsyKeys(ps[..|ps| - 1]) + if Truthy(ps[|ps| - 1].val) then [] else [ps[|ps| - 1].key]
  }

  /** A name is collected exactly when some property with that name holds a falsy value. */
  lemma {:induction false} FalsyKeysMembers(ps: seq<Prop>, k: string)
    ensures k in FalsyKeys(ps) <==> exists i :: 0 <= i < |ps| && ps[i].key == k && !Truthy(ps[i].val)
  {
    if ps != [] {
      var init := ps[..|ps| - 1];
      FalsyKeysMembers(init, k);
      assert forall i :: 0 <= i < |init| ==> init[i] == ps[i];
    }
  }

  lemma FalsyKeysStep(ps: seq<Prop>, i: nat)
    requires i < |ps|
    ensures FalsyKeys(ps[..i + 1]) == FalsyKeys(ps[..i]) + if Truthy(ps[i].val) then [] else [ps[i].key]
  {
    assert ps[..i + 1][..i] == ps[..i];
  }

  /** The properties whose name is not among ks. */
  function WithoutKeys(ps: seq<Prop>, ks: seq<string>): (r: seq<Prop>)
    ensures forall p :: p in r <==> p in ps && p.key !in ks
  {
    Filter(ps, (p: Prop) => p.key !in ks)
  }

  /** Deleting one more bad name from the object. */
  lemma DeleteOneMore(ps: seq<Prop>, ks: seq<string>, k: string)
    ensures Delete(WithoutKeys(ps, ks), k) == WithoutKeys(ps, ks + [k])
  {
    var f := (p: Prop) => p.key !in ks;
    var g := (p: Prop) => p.key != k;
    FilterFilter(ps, f, g);
    FilterSame(ps, (p: Prop) => f(p) && g(p), (p: Prop) => p.key !in ks + [k]);
  }

  /** Deleting every collected bad name leaves exactly the truthy requirements. */
  lemma DeletingFalsyKeys(ps: seq<Prop>)
    requires DistinctKeys(ps)
    ensures WithoutKeys(ps, FalsyKeys(ps)) == TruthyProps(ps)
  {
    var bad := FalsyKeys(ps);
    forall p | p in ps ensures (p.key !in bad) == Truthy(p.val) {
      var i :| 0 <= i < |ps| && ps[i] == p;
      FalsyKeysMembers(ps, p.key);
      if p.key in bad {
        var j :| 0 <= j < |ps| && ps[j].key == p.key && !Truthy(ps[j].val);
        assert i == j;
      }
    }
    FilterSame(ps, (p: Prop) => p.key !in bad, (p: Prop) => Truthy(p.val));
  }

  /**
   * buildRequirements: removes, in place, every requirement whose value is falsy and returns
   * the same object.
   */
  method BuildRequirements(requirements: JsObject) returns (result: JsObject)
    requires DistinctKeys(requirements.props)
    modifies requirements
    ensures result == requirements
    ensures requirements.props == TruthyProps(old(requirements.props))
  {
    var badKeys := CollectFalsyKeys(requirements);
    RemoveKeys(requirements, badKeys);
    DeletingFalsyKeys(old(requirements.props));
    result := requirements;
  }

  /** The first loop of buildRequirements: the names whose value is falsy, in order. */
  method CollectFalsyKeys(requirements: JsObject) returns (badKeys: seq<string>)
    requires DistinctKeys(requirements.props)
    ensures badKeys == FalsyKeys(requirements.props)
  {
    badKeys := [];
    var i := 0;
    while i < |requirements.props|
      invariant 0 <= i <= |requirements.props|
      invariant badKeys == FalsyKeys(requirements.props[..i])
    {
      var key := requirements.props[i].key;
      GetAt(requirements.props, i);
      FalsyKeysStep(requirements.props, i);
      if !Truthy(Get(requirements.props, key)) {
        badKeys := badKeys + [key];
      }
      i := i + 1;
    }
    assert requirements.props[..i] == requirements.props;
  }

  /** The second loop of buildRequirements: deletes each of the names from the object. */
  method RemoveKeys(requirements: JsObject, badKeys: seq<string>)
    modifies requirements
    ensures requirements.props == WithoutKeys(old(requirements.props), badKeys)
  {
    ghost var original := requirements.props;
    FilterAll(original, (p: Prop) => p.key !in badKeys[..0]);
    var j := 0;
    while j < |badKeys|
      invariant 0 <= j <= |badKeys|
      invariant requirements.props == WithoutKeys(original, badKeys[..j])
    {
      DeleteOneMore(original, badKeys[..j], badKeys[j]);
      assert badKeys[..j + 1] == badKeys[..j] + [badKeys[j]];
      requirements.Remove(badKeys[j]);
      j := j + 1;
    }
    assert badKeys[..j] == badKeys;
  }

  /**
   * Reading a requirement after the filter gives its old value when that was truthy and
   * undefined otherwise.
   */
  lemma TruthyPropsGet(ps: seq<Prop>, k: string)
    requires DistinctKeys(ps)
    ensures Truthy(Get(ps, k)) ==> Get(TruthyProps(ps), k) == Get(ps, k)
    ensures !Truthy(Get(ps, k)) ==> Get(TruthyProps(ps), k) == Undefined
  {
    var r := TruthyProps(ps);
    forall i, j | 0 <= i < j < |r| ensures r[i].key != r[j].key {
      FilterOrder(ps, (p: Prop) => Truthy(p.val), i, j);
    }
    GetOfDistinct(ps, k);
    GetOfDistinct(r, k);
    if i :| 0 <= i < |r| && r[i].key == k {
      assert r[i] in ps;
    }
  }

  /** Filtering the requirements a second time changes nothing. */
  lemma TruthyPropsIdempotent(ps: seq<Prop>)
    ensures TruthyProps(TruthyProps(ps)) == TruthyProps(ps)
  {
    var t := (p: Prop) => Truthy(p.val);
    FilterFilter(ps, t, t);
    FilterSame(ps, (p: Prop) => t(p) && t(p), t);
  }

  // ---------------------------------------------------------------------------------------------
  // The fragment cache
  // ---------------------------------------------------------------------------------------------

  /** A path in the content store. */
  type Path = string

  /** `util.generateFragmentCacheKey(fragmentId, requirements)`, whatever it computes. */
  type KeyFunction = (string, seq<Prop>) -> string

  /** The directory fragments are cached under, and the name of each cached artifact. */
  const FRAGMENTS_DIR: string := "duster/fragments/"
  const FRAGMENT_FILE: string := "/fragment.html"

  /**
   * `path.join("duster", "fragments", fragmentId, cacheKey, "fragment.html")`: every cached
   * fragment is a file named fragment.html under duster/fragments.
   */
  function FragmentFilePath(fragmentId: string, cacheKey: string): (p: Path)
    ensures |p| > |FRAGMENTS_DIR| + |FRAGMENT_FILE|
    ensures p[..|FRAGMENTS_DIR|] == FRAGMENTS_DIR && p[|p| - |FRAGMENT_FILE|..] == FRAGMENT_FILE
  {
    FRAGMENTS_DIR + (fragmentId + "/" + cacheKey) + FRAGMENT_FILE
  }

  function FragmentLocation(keyOf: KeyFunction, fragmentId: string, requirements: seq<Prop>): Path
  {
    FragmentFilePath(fragmentId, keyOf(fragmentId, requirements))
  }

  /**
   * Distinct fragments, or distinct keys of one fragment, are cached at distinct paths, as
   * long as no fragment id holds a "/".
   */
  lemma FragmentFilePathInjective(id1: string, key1: string, id2: string, key2: string)
    requires '/' !in id1 && '/' !in id2
    ensures FragmentFilePath(id1, key1) == FragmentFilePath(id2, key2) <==> id1 == id2 && key1 == key2
  {
    if FragmentFilePath(id1, key1) == FragmentFilePath(id2, key2) {
      Uncover(FRAGMENTS_DIR, id1 + "/" + key1, id2 + "/" + key2, FRAGMENT_FILE);
      SplitAtFirst(id1, key1, id2, key2, '/');
    }
  }

  /** What lies between a common prefix and a common suffix. */
  lemma Uncover(pre: string, x: string, y: string, post: string)
    requires pre + x + post == pre + y + post
    ensures x == y
  {
    var s := pre + x + post;
    assert x == s[|pre|..|s| - |post|];
  }

  /** An id holding "/" can share its file with another fragment. */
  lemma FragmentFilePathCollision()
    ensures FragmentFilePath("a/b", "k") == FragmentFilePath("a", "b/k")
  {
  }

  /** `if (!fragmentId)` fails for a missing and for an empty id. */
  predicate Present(fragmentId: Option<string>)
  {
    fragmentId.Some? && fragmentId.value != ""
  }

  /** A dust chunk, reduced to the pieces buffered in it and how often it has been ended. */
  class Chunk {
    var data: seq<string>
    var ends: nat

    constructor (data: seq<string>)
      ensures this.data == data && ends == 0
    {
      this.data := data;
      ends := 0;
    }

    /** `chunk.write(text)`. */
    method Write(text: string)
      modifies this
      ensures data == old(data) + [text] && ends == old(ends)
    {
      data := data + [text];
    }

    /** The `end(chunk, context)` helper, which calls `chunk.end()`. */
    method End()
      modifies this
      ensures ends == old(ends) + 1 && data == old(data)
    {
      ends := ends + 1;
    }
  }

  datatype StoreOp = ReadOp(path: Path) | WriteOp(path: Path, text: string)

  /** What `util.safeReadStream` hands its callback, with a stream reduced to its whole text. */
  datatype ReadResult = Stream(text: string) | NoStream | ReadError(error: Value)

  /** The outcome of reading path from a store holding files, whose I/O fails on broken. */
  function ReadAt(files: map<Path, string>, broken: set<Path>, path: Path): (r: ReadResult)
    ensures r.Stream? <==> path !in broken && path in files
    ensures r.Stream? ==> r.text == files[path]
  {
    if path in broken then ReadError(Str("I/O error"))
    else if path in files then Stream(files[path])
    else NoStream
  }

  /** A written artifact reads back as exactly the text written, until the next write to it. */
  lemma WriteThenRead(files: map<Path, string>, broken: set<Path>, path: Path, text: string)
    requires path !in broken
    ensures ReadAt(files[path := text], broken, path) == Stream(text)
  {
  }

  /** The tenant's content store: its artifacts and, in order, the reads and writes issued. */
  class ContentStore {
    var files: map<Path, string>
    const broken: set<Path>
    var log: seq<StoreOp>

    constructor (files: map<Path, string>, broken: set<Path>)
      ensures this.files == files && this.broken == broken && log == []
    {
      this.files := files;
      this.broken := broken;
      log := [];
    }

    /** `util.safeReadStream(contentStore, path, cb)`. */
    method SafeReadStream(path: Path) returns (r: ReadResult)
      modifies this
      ensures files == old(files) && log == old(log) + [ReadOp(path)]
      ensures r == ReadAt(files, broken, path)
    {
      log := log + [ReadOp(path)];
      r := ReadAt(files, broken, path);
    }

    /** `contentStore.writeFile(path, text, cb)`: the whole text, or nothing on an I/O error. */
    method WriteFile(path: Path, text: string) returns (err: Option<Value>)
      modifies this
      ensures log == old(log) + [WriteOp(path, text)]
      ensures err.None? <==> path !in broken
      ensures files == if path in broken then old(files) else old(files)[path := text]
    {
      log := log + [WriteOp(path, text)];
      if path in broken {
        err := Some(Str("I/O error"));
      } else {
        files := files[path := text];
        err := None;
      }
    }
  }

  /** The `requires` and `produces` members of the render-scoped tracker, handed on by reference. */
  datatype Dependencies = Dependencies(required: Value, produced: Value)

  datatype Rendition = Rendition(descriptor: seq<Prop>, dependencies: Dependencies)

  /** The rendition marker: every call it received, and the error it answers with, if any. */
  class Renditions {
    var marked: seq<Rendition>
    const failure: Option<Value>

    constructor (failure: Option<Value>)
      ensures marked == [] && this.failure == failure
    {
      marked := [];
      this.failure := failure;
    }

    /** `renditions.markRendition(req, descriptor, dependencies, cb)`. */
    method MarkRendition(descriptor: seq<Prop>, dependencies: Dependencies) returns (err: Option<Value>)
      modifies this
      ensures marked == old(marked) + [Rendition(descriptor, dependencies)]
      ensures err == failure
    {
      marked := marked + [Rendition(descriptor, dependencies)];
      err := failure;
    }
  }

  /** The render context entries the helpers look up. */
  class RenderContext {
    /** `req.stores.content` of `context.get("req")`. */
    const store: ContentStore
    const renditions: Renditions
    /** `context.get("_page_descriptor")`, when it is an object. */
    const pageDescriptor: Option<seq<Prop>>
    /** `context.get("__tracker")`. */
    const tracker: Dependencies
    const keyOf: KeyFunction

    constructor (store: ContentStore, renditions: Renditions, pageDescriptor: Option<seq<Prop>>,
                 tracker: Dependencies, keyOf: KeyFunction)
      ensures this.store == store && this.renditions == renditions
      ensures this.pageDescriptor == pageDescriptor && this.tracker == tracker && this.keyOf == keyOf
    {
      this.store := store;
      this.renditions := renditions;
      this.pageDescriptor := pageDescriptor;
      this.tracker := tracker;
      this.keyOf := keyOf;
    }
  }

  /**
   * The descriptor the rendition is marked with: a copy of the page descriptor carrying the
   * fragment's id, the FRAGMENT scope and its cache key; every other field is the page's.
   */
  function FragmentDescriptor(page: Option<seq<Prop>>, fragmentId: string, cacheKey: string)
    : (d: seq<Prop>)
    ensures Get(d, "fragmentId") == Str(fragmentId)
    ensures Get(d, "scope") == Str("FRAGMENT")
    ensures Get(d, "fragmentCacheKey") == Str(cacheKey)
  {
    PutOther(UnkeyedDescriptor(page, fragmentId), "fragmentCacheKey", Str(cacheKey), "fragmentId");
    PutOther(UnkeyedDescriptor(page, fragmentId), "fragmentCacheKey", Str(cacheKey), "scope");
    PutGet(UnkeyedDescriptor(page, fragmentId), "fragmentCacheKey", Str(cacheKey));
    Put(UnkeyedDescriptor(page, fragmentId), "fragmentCacheKey", Str(cacheKey))
  }

  /**
   * Every other field of the fragment descriptor is the JSON copy of the page descriptor's
   * (the page descriptor being an object, its names are distinct).
   */
  lemma FragmentDescriptorInherits(page: Option<seq<Prop>>, fragmentId: string, cacheKey: string, k: string)
    requires page.Some? ==> DistinctKeys(page.value)
    requires k != "fragmentId" && k != "scope" && k != "fragmentCacheKey"
    ensures Get(FragmentDescriptor(page, fragmentId, cacheKey), k)
      == if page.Some? then JsonCopy(Get(page.value, k)) else Undefined
  {
    var base := PageCopy(page);
    if page.Some? {
      GetJsonCopy(page.value, k);
    }
    PutOther(base, "fragmentId", Str(fragmentId), k);
    PutOther(Put(base, "fragmentId", Str(fragmentId)), "scope", Str("FRAGMENT"), k);
    PutOther(UnkeyedDescriptor(page, fragmentId), "fragmentCacheKey", Str(cacheKey), k);
  }

  /** `JSON.parse(JSON.stringify(pageDescriptor))` when there is a page descriptor, else `{}`. */
  function PageCopy(page: Option<seq<Prop>>): seq<Prop>
  {
    if page.Some? then JsonCopy(Obj(page.value)).props else []
  }

  /** The descriptor renderFragment builds, before handleCacheFragmentWrite adds the key. */
  function UnkeyedDescriptor(page: Option<seq<Prop>>, fragmentId: string): (d: seq<Prop>)
    ensures Get(d, "fragmentId") == Str(fragmentId)
    ensures Get(d, "scope") == Str("FRAGMENT")
  {
    var base := PageCopy(page);
    PutGet(base, "fragmentId", Str(fragmentId));
    PutGet(Put(base, "fragmentId", Str(fragmentId)), "scope", Str("FRAGMENT"));
    PutOther(Put(base, "fragmentId", Str(fragmentId)), "scope", Str("FRAGMENT"), "fragmentId");
    Put(Put(base, "fragmentId", Str(fragmentId)), "scope", Str("FRAGMENT"))
  }

  /**
   * handleCacheFragmentRead: reads the artifact cached for the fragment under the key of its
   * requirements.
   */
  method ReadCachedFragment(context: RenderContext, fragmentId: string, requirements: JsObject)
    returns (r: ReadResult)
    modifies context.store
    ensures var path := FragmentLocation(context.keyOf, fragmentId, requirements.props);
      && context.store.files == old(context.store.files)
      && context.store.log == old(context.store.log) + [ReadOp(path)]
      && r == ReadAt(context.store.files, context.store.broken, path)
  {
    var fragmentCacheKey := context.keyOf(fragmentId, requirements.props);
    var fragmentFilePath := FragmentFilePath(fragmentId, fragmentCacheKey);
    r := context.store.SafeReadStream(fragmentFilePath);
  }

  /**
   * handleCacheFragmentWrite: records the cache key in the descriptor, writes the text at the
   * fragment's location and, only once that write succeeded, marks the rendition.
   */
  method WriteCachedFragment(context: RenderContext, descriptor: JsObject,
                             dependencies: Dependencies, requirements: JsObject, text: string)
    returns (err: Option<Value>)
    requires Get(descriptor.props, "fragmentId").Str?
    modifies descriptor, context.store, context.renditions
    ensures var fragmentId := Get(old(descriptor.props), "fragmentId").s;
      var key := context.keyOf(fragmentId, old(requirements.props));
      var path := FragmentFilePath(fragmentId, key);
      var written := path !in context.store.broken;
      && descriptor.props == Put(old(descriptor.props), "fragmentCacheKey", Str(key))
      && context.store.log == old(context.store.log) + [WriteOp(path, text)]
      && context.store.files == (if written then old(context.store.files)[path := text]
                                 else old(context.store.files))
      && context.renditions.marked == old(context.renditions.marked)
           + (if written then [Rendition(descriptor.props, dependencies)] else [])
      && (written ==> err == context.renditions.failure)
      && (!written ==> err.Some?)
  {
    var fragmentId := Get(descriptor.props, "fragmentId").s;
    var fragmentCacheKey := context.keyOf(fragmentId, requirements.props);
    descriptor.Set("fragmentCacheKey", Str(fragmentCacheKey));
    var fragmentFilePath := FragmentFilePath(fragmentId, fragmentCacheKey);
    err := context.store.WriteFile(fragmentFilePath, text);
    if err.Some? {
      return;
    }
    err := context.renditions.MarkRendition(descriptor.props, dependencies);
  }

  /** What serveFragment hands its callback: `(null, true)`, `()` or the read error. */
  datatype ServeOutcome = NotCacheable | Served | ReadFailed(message: string)

  /**
   * serveFragment: without an id it declines at once; otherwise a cached artifact is written
   * to the chunk, which is then ended; a failed or empty read leaves the chunk alone.
   */
  method ServeFragment(context: RenderContext, chunk: Chunk, fragmentId: Option<string>,
                       requirements: JsObject)
    returns (r: ServeOutcome)
    modifies chunk, context.store
    ensures context.store.files == old(context.store.files)
    ensures !Present(fragmentId) ==>
      r == NotCacheable && unchanged(chunk) && context.store.log == old(context.store.log)
    ensures Present(fragmentId) ==>
      var path := FragmentLocation(context.keyOf, fragmentId.value, requirements.props);
      var read := ReadAt(context.store.files, context.store.broken, path);
      && context.store.log == old(context.store.log) + [ReadOp(path)]
      && (read.Stream? ==> r == Served && chunk.data == old(chunk.data) + [read.text]
                           && chunk.ends == old(chunk.ends) + 1)
      && (!read.Stream? ==> r == ReadFailed("Unable to read fragment") && unchanged(chunk))
  {
    if !Present(fragmentId) {
      return NotCacheable;
    }
    var readStream := ReadCachedFragment(context, fragmentId.value, requirements);
    if readStream.Stream? {
      chunk.Write(readStream.text);
      chunk.End();
      return Served;
    }
    r := ReadFailed("Unable to read fragment");
  }

  /** `chunk.data.join() || ""` followed by the body's `data.join() || ""`. */
  function CapturedText(prior: seq<string>, body: seq<string>): string
  {
    Join(prior, ",") + Join(body, ",")
  }

  /**
   * renderFragment. Without an id the body is rendered into the chunk, which is ended. With
   * one, the text buffered so far and the body's output are written to the emptied chunk as
   * one piece, the chunk is ended, and that text is cached with its descriptor.
   */
  method RenderFragment(context: RenderContext, fragmentId: Option<string>, requirements: JsObject,
                        chunk: Chunk, body: seq<string>)
    returns (err: Option<Value>)
    modifies chunk, context.store, context.renditions
    ensures chunk.ends == old(chunk.ends) + 1
    ensures !Present(fragmentId) ==>
      && chunk.data == old(chunk.data) + body && err.None?
      && unchanged(context.store) && unchanged(context.renditions)
    ensures Present(fragmentId) ==>
      var text := CapturedText(old(chunk.data), body);
      var key := context.keyOf(fragmentId.value, requirements.props);
      var path := FragmentFilePath(fragmentId.value, key);
      var written := path !in context.store.broken;
      var descriptor := FragmentDescriptor(context.pageDescriptor, fragmentId.value, key);
      && chunk.data == body + [text]
      && context.store.log == old(context.store.log) + [WriteOp(path, text)]
      && context.store.files == (if written then old(context.store.files)[path := text]
                                 else old(context.store.files))
      && context.renditions.marked == old(context.renditions.marked)
           + (if written then [Rendition(descriptor, context.tracker)] else [])
      && (written ==> err == context.renditions.failure)
      && (!written ==> err.Some?)
  {
    if !Present(fragmentId) {
      chunk.data := chunk.data + body;
      chunk.End();
      return None;
    }
    var text := CaptureChunk(chunk, body);
    var fragmentDescriptor := NewFragmentDescriptor(context, fragmentId.value);
    var fragmentDependencies := Dependencies(context.tracker.required, context.tracker.produced);
    err := WriteCachedFragment(context, fragmentDescriptor, fragmentDependencies, requirements, text);
  }

  /**
   * The capture step of renderFragment: the text buffered so far and the body's output, joined,
   * are written as one piece to the emptied chunk, which is then ended.
   */
  method CaptureChunk(chunk: Chunk, body: seq<string>) returns (text: string)
    modifies chunk
    ensures text == CapturedText(old(chunk.data), body)
    ensures chunk.data == body + [text] && chunk.ends == old(chunk.ends) + 1
  {
    var curChunk := Join(chunk.data, ",");
    chunk.data := [];
    chunk.data := chunk.data + body;
    assert chunk.data == body;
    var bodyText := Join(chunk.data, ",");
    text := curChunk + bodyText;
    chunk.Write(text);
    chunk.End();
  }

  /** The descriptor renderFragment starts from: a copy of the page descriptor with the id and scope. */
  method NewFragmentDescriptor(context: RenderContext, fragmentId: string) returns (d: JsObject)
    ensures fresh(d)
    ensures d.props == UnkeyedDescriptor(context.pageDescriptor, fragmentId)
  {
    d := new JsObject([]);
    if context.pageDescriptor.Some? {
      d.props := JsonCopy(Obj(context.pageDescriptor.value)).props;
    }
    d.Set("fragmentId", Str(fragmentId));
    d.Set("scope", Str("FRAGMENT"));
  }

  /**
   * A populated fragment is served from the cache: after renderFragment stored its text, a
   * serveFragment with the same id and requirements writes that same text to its chunk.
   */
  method RenderThenServe(context: RenderContext, fragmentId: string, requirements: JsObject,
                         chunk: Chunk, body: seq<string>, next: Chunk)
    returns (err: Option<Value>, r: ServeOutcome)
    requires fragmentId != "" && chunk != next
    modifies chunk, next, context.store, context.renditions
    ensures var path := FragmentLocation(context.keyOf, fragmentId, requirements.props);
      path !in context.store.broken ==>
        && r == Served
        && next.data == old(next.data) + [CapturedText(old(chunk.data), body)]
        && next.ends == old(next.ends) + 1
    ensures var text := CapturedText(old(chunk.data), body);
      var path := FragmentLocation(context.keyOf, fragmentId, requirements.props);
      var written := path !in context.store.broken;
      var descriptor := FragmentDescriptor(context.pageDescriptor, fragmentId, context.keyOf(fragmentId, requirements.props));
      && chunk.data == body + [text] && chunk.ends == old(chunk.ends) + 1
      && context.store.log == old(context.store.log) + [WriteOp(path, text), ReadOp(path)]
      && context.store.files == (if written then old(context.store.files)[path := text]
                                 else old(context.store.files))
      && context.renditions.marked == old(context.renditions.marked)
           + (if written then [Rendition(descriptor, context.tracker)] else [])
      && (written ==> err == context.renditions.failure)
      && (!written ==> err.Some? && r == ReadFailed("Unable to read fragment") && unchanged(next))
  {
    err := RenderFragment(context, Some(fragmentId), requirements, chunk, body);
    r := ServeFragment(context, next, Some(fragmentId), requirements);
  }
}
