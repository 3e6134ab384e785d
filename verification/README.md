# Cloud CMS application server: fragment cache, performance headers, config endpoint

A Dafny model of three pieces of the Cloud CMS Node.js application server.

- **The dust tag helpers** (`duster/support.js`) do three jobs:
  - resolve a tag's variable expressions one after the other, trimming each rendered value and stopping at the first failure;
  - drop every falsy requirement from a requirements object, in place;
  - serve a fragment from, or populate, the fragment render cache in the tenant's content store, marking a rendition once an artifact has been written.
- **The performance interceptors** (`middleware/perf/perf.js`) work in production mode only:
  - the path interceptor sets Cache-Control, Pragma and Expires from the configured path rules, rewriting a rule's `seconds` of -1 to one year in place;
  - the mimetype interceptor picks a Cache-Control value for the requested file: thirty days for a fingerprinted name, a year for css, images and javascript, an hour for html, `no-cache` otherwise. It then rewrites the url so that `<name>-<key>.<ext>` is requested as `<name>.<ext>`.
- **The config middleware** (`middleware/config/config.js`):
  - keeps one config adapter per store id;
  - flattens the adapter's application, block and page configuration into one ordered array of evaluator entries. The entries come in this order: the application entry, the blocks, each page's region entries and page entry, then one entry per distinct gadget name;
  - answers `GET /_config…` with that array.

The files:

- `js.dfy` (module `Js`) holds the JavaScript semantics the three rely on: values and truthiness, objects as ordered property lists (`o[k] = v`, `delete`, for-in order), `JSON.parse(JSON.stringify(v))`, `String(v)`, `Array.prototype.join` and `String.prototype.trim`.
- `support.dfy` (module `DusterSupport`), `perf.dfy` (module `Perf`) and `config.dfy` (module `Config`) follow the three source files.

State that the source updates in place is modelled by classes: the requirements object, the dust chunk, the content store, the rendition marker, the perf configuration, the request, the response and the adapter cache. Each method states its whole new state. The loops of the source are methods with loop invariants, proved against specification functions (`FalsyKeys`, `Resolved`, `HeadersAfter`, `Collect`, `PageEntries`, `GadgetCollection`, `ConfigArray`). The lemmas prove the properties about those functions.

Collaborators whose code is not part of this model are parameters:

- the dust template evaluator (`render`);
- `util.generateFragmentCacheKey` (`keyOf`);
- the content store, with the set of paths whose I/O fails;
- the rendition marker and the error it answers with;
- the regular-expression test of a path rule (`matches`);
- the clock, through the formatted expiry date (`utcAfter`);
- the mimetype table (`lookup`);
- what a store's config adapter calls back with from `init` and from its three loaders.

## Model

| member | source | states |
|---|---|---|
| `Js.IsDefined` | duster/support.js:17-20 | every value an `if` accepts passes isDefined, and undefined is the only value isDefined rejects |
| `Js.TrimEnds` | duster/support.js:50 | neither end of a trimmed value is white space |
| `Js.TrimInside` | duster/support.js:50 | a trimmed value is a piece of the original with only white space on either side of it |
| `Js.TrimIdempotent` | duster/support.js:50 | trimming a trimmed value changes nothing |
| `Js.PutGet` | duster/support.js:173 | after `o[k] = v`, `o[k]` reads v; k is appended to the keys only when it was not already a key |
| `Js.JsObject.Set` | duster/support.js:173 | property assignment replaces the object's properties by the assigned list |
| `Js.JsObject.Remove` | duster/support.js:125 | `delete` replaces the object's properties by the list without that key |
| `Js.JsonCopySafe` | middleware/config/config.js:128 | the JSON copy of a defined value holds no undefined and no NaN, and a value without them is its own copy |
| `Js.JsonCopyIdempotent` | middleware/config/config.js:128 | copying a JSON copy again gives the same copy |
| `Js.GetJsonCopy` | duster/support.js:266 | each property of an object's JSON copy reads as the JSON copy of the object's own property; undefined ones are dropped |
| `Js.DeleteDistinct` | middleware/config/config.js:129-130 | after `delete o[k]`, k is gone, every other name reads as before, and the names stay distinct |
| `DusterSupport.FirstFailure` | duster/support.js:61-63 | the series stops at the first expression whose rendering fails: every earlier one rendered, that one failed |
| `DusterSupport.ResolvedAt` | duster/support.js:50-52 | each resolved value is the trimmed output of its own expression, in expression order |
| `DusterSupport.ResolveVariables` | duster/support.js:22-64 | no variables: no error and no values; otherwise the trimmed values up to the first failure, that failure's error, and one evaluator call per expression up to and including the failing one |
| `DusterSupport.FirstFailureAt` | duster/support.js:45-48 | past a run of successes, the next expression fails exactly when it is the first failure |
| `DusterSupport.FalsyKeysMembers` | duster/support.js:117-122 | a name is collected as bad exactly when some property with that name holds a falsy value |
| `DusterSupport.CollectFalsyKeys` | duster/support.js:115-122 | the first loop collects exactly the falsy names, in for-in order |
| `DusterSupport.RemoveKeys` | duster/support.js:124-126 | the second loop leaves exactly the properties whose name was not collected |
| `DusterSupport.DeletingFalsyKeys` | duster/support.js:113-129 | deleting every collected name leaves exactly the truthy requirements, in their order |
| `DusterSupport.BuildRequirements` | duster/support.js:113-129 | the same object is returned, holding exactly its truthy requirements in their old order |
| `DusterSupport.TruthyPropsGet` | duster/support.js:113-129 | after the filter, a requirement reads its old value when that was truthy and undefined otherwise |
| `DusterSupport.TruthyPropsIdempotent` | duster/support.js:113-129 | filtering the requirements a second time changes nothing |
| `DusterSupport.FragmentFilePath` | duster/support.js:149-176 | in the model, which joins the parts without `path.join`'s normalisation, every cached fragment is a file named fragment.html under duster/fragments |
| `DusterSupport.FragmentFilePathInjective` | duster/support.js:149-176 | in the model, which joins the parts without `path.join`'s normalisation: for fragment ids without "/", two fragments share a cache path exactly when they share id and cache key |
| `DusterSupport.FragmentFilePathCollision` | duster/support.js:149-176 | an id holding "/" can share its cache path with another fragment's: ("a/b", "k") and ("a", "b/k") |
| `DusterSupport.ReadAt` | duster/support.js:150-152 | a read yields a stream exactly when the artifact exists and its I/O does not fail, and the stream carries the stored text |
| `DusterSupport.WriteThenRead` | duster/support.js:177 | a written artifact reads back as exactly the text written |
| `DusterSupport.ContentStore.SafeReadStream` | duster/support.js:150-152 | a read leaves the artifacts alone, is logged, and yields the outcome ReadAt states |
| `DusterSupport.ContentStore.WriteFile` | duster/support.js:177-183 | a write is logged; it stores the whole text and reports no error, or, on failed I/O, stores nothing and reports an error |
| `DusterSupport.Renditions.MarkRendition` | duster/support.js:185-187 | the rendition is recorded with its descriptor and dependencies, and the marker's answer is passed on |
| `DusterSupport.Chunk.Write` | duster/support.js:220 | writing appends one piece to the chunk and does not end it |
| `DusterSupport.Chunk.End` | duster/support.js:98-101 | the end helper ends the chunk once more and leaves its data alone |
| `DusterSupport.ReadCachedFragment` | duster/support.js:131-153 | reads exactly the path derived from the fragment id and the key of its requirements, changing no artifact |
| `DusterSupport.WriteCachedFragment` | duster/support.js:155-190 | the descriptor gains the cache key; the text is written at the fragment's path; the rendition is marked only after a successful write; a failed write is reported |
| `DusterSupport.ServeFragment` | duster/support.js:193-234 | without an id, declines and touches nothing; otherwise a cached artifact is written to the chunk, which is ended; a failed or missing read leaves the chunk alone and reports "Unable to read fragment" |
| `DusterSupport.UnkeyedDescriptor` | duster/support.js:263-269 | the fragment's descriptor carries its id and the FRAGMENT scope |
| `DusterSupport.FragmentDescriptor` | duster/support.js:263-269 | once keyed, the descriptor also carries its cache key |
| `DusterSupport.FragmentDescriptorInherits` | duster/support.js:263-269 | every other field of the fragment descriptor is the JSON copy of the page descriptor's, or undefined without a page descriptor |
| `DusterSupport.NewFragmentDescriptor` | duster/support.js:263-269 | a new object: the JSON copy of the page descriptor, with the id and scope set |
| `DusterSupport.CaptureChunk` | duster/support.js:252-260 | the text is the buffered data joined, then the body's output joined; the chunk is emptied, holds the body's output and that text, and is ended |
| `DusterSupport.RenderFragment` | duster/support.js:236-291 | without an id, the body goes into the chunk, which is ended, and nothing is cached; with one, the captured text goes to the chunk and is written at the fragment's path, the rendition being marked with the keyed descriptor and the tracker's dependencies only after a successful write |
| `DusterSupport.RenderThenServe` | duster/support.js:193-291 | once a fragment has been rendered and stored, serving it with the same id and requirements writes the same text to the next chunk and ends it; the store logs the write then the read, and when the write fails the serve reports the read failure and leaves the next chunk alone |
| `Perf.MaxAgeLiterals` | middleware/perf/perf.js:23-24 | the one-hour and one-year constants print as 3600 and 31536000 |
| `Perf.SecondsTable` | middleware/perf/perf.js:76-92 | -1 caches publicly for a year, 0 switches caching off with an Expires date in the past, a positive number caches publicly for that long, and an absent value or one below -1 sets no header |
| `Perf.NormalizedRules` | middleware/perf/perf.js:60-79 | the same rules take part after the rewrite and each keeps what its `seconds` means; none of them still holds -1, which became one year; every other rule is untouched |
| `Perf.RewriteKeepsHeaders` | middleware/perf/perf.js:76-79 | the rules rewritten for one request path give any later request, for any path, the same headers; rewriting them again for the same path changes nothing |
| `Perf.WithHeadersAt` | middleware/perf/perf.js:95-108 | each of the three headers is set to its own value when that value is a non-empty string, and is otherwise left as it was |
| `Perf.RuleHeadersAt` | middleware/perf/perf.js:62-108 | one rule sets a header to the value it has for it, or leaves the header as it was |
| `Perf.LastRuleWins` | middleware/perf/perf.js:60-108 | each header is sent with the value of the last rule that sets it |
| `Perf.NoRuleSets` | middleware/perf/perf.js:60-108 | a header no rule sets keeps its old value, or stays absent |
| `Perf.OnlyCacheHeaders` | middleware/perf/perf.js:95-108 | only Cache-Control, Pragma and Expires are ever set |
| `Perf.ApplyRule` | middleware/perf/perf.js:62-109 | one iteration rewrites only rule i and sets the headers that rule gives |
| `Perf.PathPerformanceInterceptor` | middleware/perf/perf.js:50-118 | outside production nothing changes; in production the rules are rewritten in place and the headers are those the rules give in order |
| `Perf.SplitFilename` | middleware/perf/perf.js:155-166 | the name before the first "." and the extension after it, which joined give the filename back |
| `Perf.SplitJoined` | middleware/perf/perf.js:155-166 | splitting a dot-free name joined with an extension gives both back |
| `Perf.KeyDash` | middleware/perf/perf.js:171 | the last "-" of a fingerprinted name is the one before its key |
| `Perf.StripKey` | middleware/perf/perf.js:167-180 | a name ending in "-" and 32 hex digits or 13 decimal digits splits into the name and the key; any other name has no key |
| `Perf.StripKeyed` | middleware/perf/perf.js:167-180 | stripping the key from `<name>-<key>` gives back the name and the key |
| `Perf.KeyPresent` | middleware/perf/perf.js:184 | a fingerprinted name yields a non-empty key |
| `Perf.ExtName` | middleware/perf/perf.js:194 | a non-empty result is the name's last dot and what follows it; the result is empty exactly when the name has no dot, is "..", or has its only dot at its start |
| `Perf.HtmlIsShortLived` | middleware/perf/perf.js:200-212 | html is not among the long-lived types |
| `Perf.HtmlCacheControl` | middleware/perf/perf.js:205-209 | html is cached for an hour |
| `Perf.LongLivedCacheControl` | middleware/perf/perf.js:211-215 | css, images and javascript are cached for a year |
| `Perf.FingerprintedCase` | middleware/perf/perf.js:184-190 | a fingerprinted name is cached for thirty days |
| `Perf.LongLivedCase` | middleware/perf/perf.js:191-217 | an unfingerprinted css, image or javascript file is cached for a year |
| `Perf.HtmlCase` | middleware/perf/perf.js:191-217 | an unfingerprinted html file is cached for an hour |
| `Perf.OtherCase` | middleware/perf/perf.js:220-224 | any other file gets no-cache |
| `Perf.PlainCacheControl` | middleware/perf/perf.js:191-224 | without a fingerprint the mimetype decides, and no-cache stands in for no decision |
| `Perf.CacheControlTable` | middleware/perf/perf.js:182-224 | the whole cache decision: thirty days, a year, an hour or no-cache as above |
| `Perf.CacheControlFor` | middleware/perf/perf.js:182-224 | the Cache-Control value is never empty: no-cache stands in when nothing else decides |
| `Perf.CacheControlChoices` | middleware/perf/perf.js:182-224 | the Cache-Control value is one of thirty days, an hour, a year or no-cache |
| `Perf.QueryOf` | middleware/perf/perf.js:139-142 | the query is the text after the first "?", and there is none without a "?" |
| `Perf.DotfileRewriteAsWritten` | middleware/perf/perf.js:230-233 | as written, a name starting with "." is rewritten without the "/" before it |
| `Perf.TrailingDotRewriteAsWritten` | middleware/perf/perf.js:230-233 | as written, a name ending in "." is rewritten without that dot |
| `Perf.RewrittenPathAsWritten` | middleware/perf/perf.js:230-233 | as written, the directory joined with the name before the key, then "." and the extension when it is non-empty; for a non-empty name and extension this is the corrected rewrite |
| `Perf.JoinAgrees` | middleware/perf/perf.js:230-233 | joining a non-empty name and then appending a non-empty extension gives one more path segment |
| `Perf.RewrittenPath` | middleware/perf/perf.js:230-233 | the corrected rewrite: a name without a fingerprint is requested unchanged in its own directory |
| `Perf.WithoutTrailingSlashes` | middleware/perf/perf.js:144-146 | the segments `path.dirname` and `path.basename` look at: the path without its trailing empty segments, ending in a non-empty one |
| `Perf.RequestedPathAsWritten` | middleware/perf/perf.js:144-147 | as written, the url is rewritten exactly when the path has a non-empty segment, trailing slashes being ignored |
| `Perf.RequestedPath` | middleware/perf/perf.js:144-147 | the corrected rewrite of a request path: a request for a directory is left alone, and an unfingerprinted file is requested unchanged |
| `Perf.TrailingSlashRewriteAsWritten` | middleware/perf/perf.js:144-147 | as written, a request for a directory is rewritten to the bare directory name; the corrected rewrite leaves it alone |
| `Perf.PlainNameRewrite` | middleware/perf/perf.js:230-233 | a plain name without a dot or a fingerprint is requested unchanged, as written too |
| `Perf.FingerprintedRewrite` | middleware/perf/perf.js:149-237 | as written, `<name>-<key><ext>` is requested as the directory joined with `<name>`, then the non-empty extension, which is `<name><ext>` in the same directory when neither is empty; the corrected rewrite always gives that; the name is cached for thirty days |
| `Perf.MimeTypePerformanceInterceptor` | middleware/perf/perf.js:129-244 | outside production, or when the path has no non-empty segment, nothing changes; otherwise Cache-Control is set as CacheControlFor decides for the basename, and the url becomes the as-written rewrite with the query kept |
| `Config.CollectKeys` | middleware/config/config.js:75-93 | storing gadgets keeps the collection's names distinct, and its names are the old ones and the stored ones |
| `Config.GadgetCollectionKeys` | middleware/config/config.js:67-93 | the collection holds exactly one entry per distinct gadget name across all pages |
| `Config.CollectUntouched` | middleware/config/config.js:92 | a name no stored gadget carries keeps its old entry |
| `Config.CollectLastWins` | middleware/config/config.js:75-93 | the entry stored under a name is that of the last gadget with that name |
| `Config.GadgetCollectionLastWins` | middleware/config/config.js:67-93 | across pages, a gadget's entry survives when no later gadget on its page or on a later page has the same name |
| `Config.PageEntriesCount` | middleware/config/config.js:95-131 | each page contributes at least its page entry, and the last entry is the last page's |
| `Config.PageBlockArePages` | middleware/config/config.js:95-131 | a page's region entries and its page entry all have evaluator "page" |
| `Config.PageEntriesArePages` | middleware/config/config.js:69-132 | every entry the page loop pushes has evaluator "page" |
| `Config.SlotsAreGadgets` | middleware/config/config.js:79-91 | every entry built from a gadget has evaluator "gadget" |
| `Config.CollectedAreGadgets` | middleware/config/config.js:92 | storing gadget entries keeps every entry of the collection a gadget entry |
| `Config.GadgetCollectionAreGadgets` | middleware/config/config.js:67-93 | every entry of the collection is a gadget entry |
| `Config.CollectedValuesAreGadgets` | middleware/config/config.js:134-138 | every entry pushed from the collection has evaluator "gadget" |
| `Config.AssembledLayout` | middleware/config/config.js:45-140 | the application entry comes first when the application config is truthy, then the blocks in order, then only page entries, then only gadget entries |
| `Config.ConfigOrder` | middleware/config/config.js:43-141 | the same layout for the array an adapter's data flattens to |
| `Config.StrippedPageProps` | middleware/config/config.js:127-130 | the page entry's copy has neither `bindings` nor `gadgets` and keeps every other property of the copy |
| `Config.StrippedSafePage` | middleware/config/config.js:127-130 | a JSON-safe page reaches its entry unchanged apart from the two deleted properties |
| `Config.PushValues` | middleware/config/config.js:57-62 | the values of the properties are appended in for-in order (the block configs, and at lines 135-138 the collected gadgets) |
| `Config.StoreGadget` | middleware/config/config.js:77-92 | one iteration stores gadget i's entry under `type + "_" + key` |
| `Config.CollectGadgets` | middleware/config/config.js:75-93 | the walk throws exactly when a gadget cannot be read; otherwise the page's gadgets are stored in order |
| `Config.PushRegions` | middleware/config/config.js:95-118 | the walk throws exactly when a binding cannot be read; otherwise one region entry per binding is appended in order |
| `Config.WalkPage` | middleware/config/config.js:69-132 | one page throws exactly when it is not well formed (including a NaN page, whose copy is null); otherwise its region and page entries are appended and its gadgets stored |
| `Config.WalkPages` | middleware/config/config.js:64-140 | the pages are walked in order, then the collection is pushed; the walk throws exactly when some page is not well formed |
| `Config.EveryEach` | middleware/config/config.js:64-131 | a list of page configs, gadgets or bindings is walked without a throw exactly when each one can be |
| `Config.ConfigArray` | middleware/config/config.js:43-141 | the array is withheld exactly when one of the page configs is not well formed |
| `Config.Flatten` | middleware/config/config.js:43-141 | the loader callbacks produce exactly the array ConfigArray describes, or throw when it has none |
| `Config.ClaimsMethod` | middleware/config/config.js:168 | the method test accepts exactly the spellings of GET in any mix of cases |
| `Config.ConfigMiddleware.constructor` | middleware/config/config.js:6 | the adapter cache starts empty |
| `Config.ConfigMiddleware.BindConfigAdapter` | middleware/config/config.js:8-30 | a cached adapter is returned without running init; otherwise init runs, and its adapter is cached on success; on failure the error is returned and the cache is left alone |
| `Config.ConfigMiddleware.HandleConfigRequest` | middleware/config/config.js:32-145 | the bound adapter's flattened array; a failed bind throws |
| `Config.ConfigMiddleware.Handler` | middleware/config/config.js:160-197 | a request is passed to next() exactly when it is not a GET for `/_config…`, and then the adapter cache is untouched; a claimed one is sent the array, or throws, and the cache gains the store's adapter exactly when it was not cached and its init succeeded |
| `Config.ConfigMiddleware.RequestTwice` | middleware/config/config.js:8-41 | after a successful bind, a request for the same store id gets the same array, whatever that store's init would now yield; after a failed one the second request binds afresh; the final cache holds the first adapter that bound |

## Left out

- `r.map` and `_MARK_INSIGHT` in duster/support.js are not modelled; they are not part of the fragment cache or requirement handling.
- Logging (`req.log`, `console.log`) and the `next()` call that closes every interceptor and the handler are not modelled. They change no state the model tracks.
- The asynchrony of `async.series`, of the stream events and of the store and adapter callbacks is not modelled. Each callback chain is modelled as one sequential method, in the order the callbacks run.
- A stream is reduced to its whole text. The buffering and `Buffer.concat` in serveFragment are left out.
- `DusterSupport.ResolveVariables`: a falsy `variables` argument is modelled as None, and the expressions are taken as strings. The `"" + variable` conversion of other values is not modelled.
- `DusterSupport.RenderFragment`: the dust body is modelled as the list of pieces it writes into the chunk, not as a template.
- `DusterSupport.NewFragmentDescriptor`: the page descriptor is modelled only when it is an object or absent. A truthy page descriptor of another kind (a string, a number) is not modelled.
- `DusterSupport.FragmentFilePath`: `path.join`'s normalisation is not modelled; the path is the five parts joined with "/". An empty part, a "." or ".." part, or a part with a leading or trailing "/" would be normalised by Node.
- `DusterSupport.FragmentFilePathInjective`: holds only for fragment ids without "/"; `DusterSupport.FragmentFilePathCollision` shows two fragments that share a file otherwise. Under Node's normalisation it fails for some ids without "/" as well: id ".." with key "k" names duster/k/fragment.html, and id "." with key "x/y" names the same file as id "x" with key "y".
- `DusterSupport.WriteCachedFragment`: the fragment id is required to be a string. A descriptor whose id is some other value is not modelled, because the path join would then throw.
- `util.generateFragmentCacheKey`, `util.safeReadStream`, `contentStore.writeFile` and `renditions.markRendition` are not part of this model. Each is a parameter, or a small class that records its calls.
- `Perf.PathPerformanceInterceptor`: `seconds` is modelled as an integer or absent. Values that JavaScript compares with 0 as a number are not modelled unless they are integers. These are a numeric string, a fractional number, `true` (which passes `> 0` and gives `public, max-age=true`) and a one-element numeric array such as `[5]` (which gives `public, max-age=5`). None of them can be written as a model `seconds`, which is an integer, or None for a value that sets no header.
- Perf: the regular-expression test, `new Date(...).toUTCString()` and `mime.lookup` are parameters. A regex that fails to compile (a throw) is not modelled.
- Perf: `req.path` is modelled as its segments. `path.dirname`, `path.basename` and `path.join` are modelled for an absolute path whose only empty segments are trailing ones; `.` and `..` segments and repeated slashes inside the path are not.
- `Perf.MimeTypePerformanceInterceptor` models the url rewrite as written (`Perf.RequestedPathAsWritten`). The corrected rewrite (`Perf.RequestedPath`, `Perf.RewrittenPath`) is stated and proved beside it, but the interceptor does not use it.
- `Perf.MimeTypePerformanceInterceptor`: the `try`/`catch` around `res.header` is left out, because setting a header is modelled as never throwing.
- Numbers are integers. NaN is a value of its own; fractions are not modelled.
- `JSON.parse(JSON.stringify(v))` is modelled on those integers, so how JSON prints numbers does not arise.
- An object is an ordered list of its own enumerable properties. JavaScript's rule that integer-like keys enumerate first is not modelled.
- `Config.ConfigMiddleware.BindConfigAdapter`: a cached adapter is assumed truthy. An init that succeeds with a falsy adapter would be cached and then initialised again on every request; that case is not modelled.
- `./adapter` is not part of this model. What a store's adapter calls back with from `init` and from its three loaders is data of the store.
- `Config.ConfigMiddleware.HandleConfigRequest`: a failed bind is modelled as a throw, with no message. The message at middleware/config/config.js:38 reads the undeclared variable `host`, so it throws a ReferenceError before any error body is built.
- `Config.ConfigMiddleware.Handler`: because of that, the handler's error reply at middleware/config/config.js:174-181 is never reached and is not modelled. `res.send`'s JSON serialisation of the array is not modelled either; the reply is the array value itself.
- `Config.ClaimsMethod`: `toLowerCase` is modelled on ASCII letters only. No other character lowers to `g`, `e` or `t`, so the comparison with "get" comes out the same.

## Findings

| source | as written | input that shows it | evidently intended | confidence | as-written member | corrected member |
|---|---|---|---|---|---|---|
| middleware/perf/perf.js:230-233 | the new url is `path.join(dir, originalFilename)` with `"." + extension` appended afterwards; for a name that starts with "." the name before the dot is empty, so the join adds nothing and the extension is glued to the directory | request path `/assets/.htaccess` is rewritten to `/assets.htaccess` | the file keeps its directory: `/assets/.htaccess` | not executed | `Perf.DotfileRewriteAsWritten` | `Perf.RewrittenPath` |
| middleware/perf/perf.js:231-233 | the extension is appended only when it is non-empty, so a name ending in "." loses its dot | request path `/docs/readme.` is rewritten to `/docs/readme` | an unfingerprinted name is requested unchanged: `/docs/readme.` | not executed | `Perf.TrailingDotRewriteAsWritten` | `Perf.RewrittenPath` |
| middleware/perf/perf.js:144-147 | `path.dirname` and `path.basename` ignore a trailing "/", so a request for a directory is treated as a request for a file named like the directory, sent with no-cache | request url `/docs/?x` is rewritten to `/docs?x` | a request for a directory is left alone: `/docs/?x` | not executed | `Perf.TrailingSlashRewriteAsWritten` | `Perf.RequestedPath` |
