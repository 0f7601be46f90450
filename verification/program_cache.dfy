/**
  The in-memory program cache and the "currently bound" state of
  `ProgramShaderCache`: a map from shader-pair key to linked program, the key
  of the bound pair and the GL name of the bound program.

  GL is opaque here. The name `glCreateProgram` hands out for a new program,
  the outcome of `glLinkProgram` and whether the build checks the link status
  at all (only debug builds do) are parameters; the GL calls whose effect the
  cache state depends on are returned as a list of `GlCall`s.
 */
module ProgramCache {
  import opened ShaderPair

  /** One linked program (`PCacheEntry`): its GL program name and the two
      shader objects it was linked from. */
  datatype Entry = Entry(progId: GLuint, psid: GLuint, vsid: GLuint)

  /** `pshaders`, `CurrentShaderProgram` and `CurrentProgram`. */
  datatype Cache = Cache(
    pshaders: map<PairKey, Entry>,
    currentShaderProgram: PairKey,
    currentProgram: GLuint)

  /** The GL calls of this component that change which program exists or is
      in use. */
  datatype GlCall = UseProgram(prog: GLuint) | DeleteProgram(prog: GLuint)

  /** Which way a call to `SetBothShaders` went. */
  datatype Path =
    | ZeroShader    // one of the names is 0: logged and ignored
    | AlreadyBound  // the pair is the bound one: nothing to do
    | Rebound       // cache hit: bind the cached program
    | Built         // cache miss: create, link, insert and bind
    | LinkFailed    // cache miss whose link failed: the program is deleted

  datatype Step = Step(cache: Cache, path: Path, calls: seq<GlCall>)

  /** The cache before anything is built: empty, nothing bound. */
  const Empty := Cache(map[], 0, 0)

  /** Every entry sits under the key of the two non-zero shaders it was
      built from. */
  ghost predicate KeysMatch(c: Cache)
  {
    forall k :: k in c.pshaders ==>
      && c.pshaders[k].psid != 0
      && c.pshaders[k].vsid != 0
      && k == CreatePair(c.pshaders[k].psid, c.pshaders[k].vsid)
  }

  /** The bound key is either 0 (nothing bound) or a cached pair whose
      program is the bound program. */
  ghost predicate BoundIsCached(c: Cache)
  {
    c.currentShaderProgram == 0 ||
      (c.currentShaderProgram in c.pshaders &&
       c.pshaders[c.currentShaderProgram].progId == c.currentProgram)
  }

  ghost predicate Inv(c: Cache)
  {
    KeysMatch(c) && BoundIsCached(c)
  }

  /** `SetBothShaders(PS, VS)`. `newName` is the name the program object of a
      cache miss receives, `linked` whether its link succeeds and
      `checksLink` whether this build looks at the link status (debug
      builds); a release build binds and caches the program whatever the
      link did. */
  function SetBothShaders(c: Cache, ps: GLuint, vs: GLuint, newName: GLuint, linked: bool, checksLink: bool): (r: Step)
    ensures r.path == ZeroShader <==> ps == 0 || vs == 0
    ensures r.path == AlreadyBound <==>
      ps != 0 && vs != 0 && CreatePair(ps, vs) == c.currentShaderProgram
    ensures r.path == Rebound <==>
      ps != 0 && vs != 0 && CreatePair(ps, vs) != c.currentShaderProgram && CreatePair(ps, vs) in c.pshaders
    ensures r.path == LinkFailed <==>
      ps != 0 && vs != 0 && CreatePair(ps, vs) != c.currentShaderProgram && CreatePair(ps, vs) !in c.pshaders
      && checksLink && !linked
    ensures r.path in {ZeroShader, AlreadyBound, LinkFailed} ==> r.cache == c
    ensures r.path in {ZeroShader, AlreadyBound} ==> r.calls == []
    ensures r.path == LinkFailed ==> r.calls == [DeleteProgram(newName)]
    ensures r.path in {Rebound, Built} ==>
      && r.cache.currentShaderProgram == CreatePair(ps, vs)
      && CreatePair(ps, vs) in r.cache.pshaders
      && r.cache.currentProgram == r.cache.pshaders[CreatePair(ps, vs)].progId
      && r.calls == [UseProgram(r.cache.currentProgram)]
    ensures r.path == Built ==> r.cache.pshaders[CreatePair(ps, vs)] == Entry(newName, ps, vs)
    ensures forall k :: k in c.pshaders ==> k in r.cache.pshaders && r.cache.pshaders[k] == c.pshaders[k]
    ensures forall k :: k in r.cache.pshaders && k !in c.pshaders ==> r.path == Built && k == CreatePair(ps, vs)
  {
    if ps == 0 || vs == 0 then
      Step(c, ZeroShader, [])
    else
      var pair := CreatePair(ps, vs);
      if pair == c.currentShaderProgram then
        Step(c, AlreadyBound, [])
      else if pair in c.pshaders then
        var entry := c.pshaders[pair];
        Step(c.(currentShaderProgram := pair, currentProgram := entry.progId), Rebound, [UseProgram(entry.progId)])
      else
        var entry := Entry(newName, ps, vs);
        if checksLink && !linked then
          Step(c, LinkFailed, [DeleteProgram(newName)])
        else
          Step(Cache(c.pshaders[pair := entry], pair, newName), Built, [UseProgram(newName)])
  }

  /** The reset at the end of `Init`: nothing bound. The table itself is not
      cleared (a cache restored from disk would be added to it). */
  function InitCache(c: Cache): (r: Cache)
    ensures r.pshaders == c.pshaders
    ensures r.currentShaderProgram == 0 && r.currentProgram == 0
    ensures KeysMatch(c) ==> Inv(r)
  {
    c.(currentShaderProgram := 0, currentProgram := 0)
  }

  /** The result of `Shutdown` on the cache: the calls made before the
      entries are destroyed, and the program names destroying them deletes
      (in the table's iteration order, which the model does not fix). */
  datatype Teardown = Teardown(cache: Cache, calls: seq<GlCall>, deleted: set<GLuint>)

  /** The cache part of `Shutdown`: GL is told to use program 0, every cached
      program is destroyed and the table cleared. The bound key and the bound
      program name are left as they were, so `CurrentProgram` still names a
      program GL no longer uses. */
  function ShutdownCache(c: Cache): (r: Teardown)
    ensures r.calls == [UseProgram(0)]
    ensures r.cache.pshaders == map[]
    ensures r.cache.currentShaderProgram == c.currentShaderProgram
    ensures r.cache.currentProgram == c.currentProgram
    ensures forall k :: k in c.pshaders ==> c.pshaders[k].progId in r.deleted
    ensures forall p :: p in r.deleted ==> exists k :: k in c.pshaders && c.pshaders[k].progId == p
  {
    Teardown(c.(pshaders := map[]), [UseProgram(0)], set k | k in c.pshaders :: c.pshaders[k].progId)
  }

  // ---------------------------------------------------------------------
  // Properties of single calls

  /** A zero shader name changes nothing and issues no GL call. */
  lemma ZeroShaderIsIgnored(c: Cache, ps: GLuint, vs: GLuint, newName: GLuint, linked: bool, checksLink: bool)
    requires ps == 0 || vs == 0
    ensures SetBothShaders(c, ps, vs, newName, linked, checksLink) == Step(c, ZeroShader, [])
  {
  }

  /** Asking for the bound pair changes nothing and issues no GL call. */
  lemma BoundPairIsNoOp(c: Cache, ps: GLuint, vs: GLuint, newName: GLuint, linked: bool, checksLink: bool)
    requires ps != 0 && vs != 0
    requires CreatePair(ps, vs) == c.currentShaderProgram
    ensures SetBothShaders(c, ps, vs, newName, linked, checksLink) == Step(c, AlreadyBound, [])
  {
  }

  /** Right after the reset of `Init` no pair of real shaders takes the early
      exit: the 0 that marks "nothing bound" is not the key of any pair. */
  lemma NoEarlyExitAfterInit(c: Cache, ps: GLuint, vs: GLuint, newName: GLuint, linked: bool, checksLink: bool)
    requires ps != 0 && vs != 0
    ensures SetBothShaders(InitCache(c), ps, vs, newName, linked, checksLink).path != AlreadyBound
  {
    NonZeroPairKey(ps, vs);
  }

  /** A cache hit binds the cached program without touching the table. */
  lemma CacheHitRebinds(c: Cache, ps: GLuint, vs: GLuint, newName: GLuint, linked: bool, checksLink: bool)
    requires ps != 0 && vs != 0
    requires CreatePair(ps, vs) != c.currentShaderProgram
    requires CreatePair(ps, vs) in c.pshaders
    ensures var r := SetBothShaders(c, ps, vs, newName, linked, checksLink);
      && r.cache.pshaders == c.pshaders
      && r.cache.currentShaderProgram == CreatePair(ps, vs)
      && r.cache.currentProgram == c.pshaders[CreatePair(ps, vs)].progId
      && r.calls == [UseProgram(c.pshaders[CreatePair(ps, vs)].progId)]
  {
  }

  /** A cache miss that links (or is not checked) adds exactly the new pair,
      leaves every other entry alone and binds the new program. */
  lemma CacheMissInserts(c: Cache, ps: GLuint, vs: GLuint, newName: GLuint, linked: bool, checksLink: bool)
    requires ps != 0 && vs != 0
    requires CreatePair(ps, vs) != c.currentShaderProgram
    requires CreatePair(ps, vs) !in c.pshaders
    requires linked || !checksLink
    ensures var r := SetBothShaders(c, ps, vs, newName, linked, checksLink);
      && r.path == Built
      && r.cache.pshaders.Keys == c.pshaders.Keys + {CreatePair(ps, vs)}
      && |r.cache.pshaders| == |c.pshaders| + 1
      && r.cache.pshaders[CreatePair(ps, vs)] == Entry(newName, ps, vs)
      && r.cache.currentShaderProgram == CreatePair(ps, vs)
      && r.cache.currentProgram == newName
  {
    var r := SetBothShaders(c, ps, vs, newName, linked, checksLink);
    assert r.cache.pshaders.Keys == c.pshaders.Keys + {CreatePair(ps, vs)};
  }

  /** A checked link that fails deletes the new program and leaves the cache
      exactly as it was. */
  lemma LinkFailureLeavesNoEntry(c: Cache, ps: GLuint, vs: GLuint, newName: GLuint)
    requires ps != 0 && vs != 0
    requires CreatePair(ps, vs) != c.currentShaderProgram
    requires CreatePair(ps, vs) !in c.pshaders
    ensures SetBothShaders(c, ps, vs, newName, false, true) == Step(c, LinkFailed, [DeleteProgram(newName)])
  {
  }

  /** A build that does not check the link status (a release build) caches
      and binds the new program even when its link failed. */
  lemma UncheckedLinkIsCached(c: Cache, ps: GLuint, vs: GLuint, newName: GLuint)
    requires ps != 0 && vs != 0
    requires CreatePair(ps, vs) != c.currentShaderProgram
    requires CreatePair(ps, vs) !in c.pshaders
    ensures var r := SetBothShaders(c, ps, vs, newName, false, false);
      && r.path == Built
      && r.cache.pshaders[CreatePair(ps, vs)].progId == newName
      && r.cache.currentProgram == newName
  {
  }

  /** Asking for the same pair twice in a row builds at most once: unless the
      first call's link failed, the second call changes nothing. */
  lemma SecondCallBuildsNothing(c: Cache, ps: GLuint, vs: GLuint, f1: GLuint, l1: bool, f2: GLuint, l2: bool, checksLink: bool)
    ensures var r1 := SetBothShaders(c, ps, vs, f1, l1, checksLink);
      var r2 := SetBothShaders(r1.cache, ps, vs, f2, l2, checksLink);
      r1.path != LinkFailed ==> r2.cache == r1.cache && r2.calls == [] && r2.path != Built
  {
  }

  /** After a failed link the pair is still missing, so asking again builds
      it afresh rather than reusing the failed program. */
  lemma RetryAfterLinkFailureRebuilds(c: Cache, ps: GLuint, vs: GLuint, f1: GLuint, f2: GLuint)
    requires SetBothShaders(c, ps, vs, f1, false, true).path == LinkFailed
    ensures var r1 := SetBothShaders(c, ps, vs, f1, false, true);
      && CreatePair(ps, vs) !in r1.cache.pshaders
      && SetBothShaders(r1.cache, ps, vs, f2, true, true).path == Built
      && SetBothShaders(r1.cache, ps, vs, f2, true, true).cache.pshaders[CreatePair(ps, vs)] == Entry(f2, ps, vs)
  {
  }

  /** One call keeps the cache invariant. */
  lemma SetBothShadersKeepsInv(c: Cache, ps: GLuint, vs: GLuint, newName: GLuint, linked: bool, checksLink: bool)
    requires Inv(c)
    ensures Inv(SetBothShaders(c, ps, vs, newName, linked, checksLink).cache)
  {
  }

  /** `Shutdown` leaves a stale binding: if a pair was bound, GL is left
      using program 0 while `CurrentProgram` still names the deleted
      program, the bound key no longer names a cached program, and asking for
      that pair again before the next `Init` takes the early exit without
      binding anything, so no program is in use. */
  lemma ShutdownLeavesStaleBinding(c: Cache, newName: GLuint, linked: bool, checksLink: bool)
    requires Inv(c)
    requires c.currentShaderProgram != 0
    ensures var t := ShutdownCache(c);
      var d := t.cache;
      var ids := GetPair(c.currentShaderProgram);
      && t.calls == [UseProgram(0)]
      && d.currentProgram == c.currentProgram
      && c.currentProgram in t.deleted
      && !BoundIsCached(d)
      && SetBothShaders(d, ids.0, ids.1, newName, linked, checksLink) == Step(d, AlreadyBound, [])
  {
    var e := c.pshaders[c.currentShaderProgram];
    assert GetPair(c.currentShaderProgram) == (e.psid, e.vsid);
  }

  // ---------------------------------------------------------------------
  // Sequences of calls

  /** The arguments of one `SetBothShaders` call together with what GL does
      with it. */
  datatype Request = Request(ps: GLuint, vs: GLuint, newName: GLuint, linked: bool)

  function ApplyRequest(c: Cache, q: Request, checksLink: bool): Step
  {
    SetBothShaders(c, q.ps, q.vs, q.newName, q.linked, checksLink)
  }

  /** The cache after a sequence of requests. */
  function RunRequests(c: Cache, qs: seq<Request>, checksLink: bool): Cache
    decreases |qs|
  {
    if qs == [] then c else RunRequests(ApplyRequest(c, qs[0], checksLink).cache, qs[1..], checksLink)
  }

  /** How many of the requests built (and cached) a new program. */
  function Builds(c: Cache, qs: seq<Request>, checksLink: bool): nat
    decreases |qs|
  {
    if qs == [] then 0
    else
      var s := ApplyRequest(c, qs[0], checksLink);
      (if s.path == Built then 1 else 0) + Builds(s.cache, qs[1..], checksLink)
  }

  /** Every sequence of requests keeps the invariant. */
  lemma {:induction false} RunKeepsInv(c: Cache, qs: seq<Request>, checksLink: bool)
    requires Inv(c)
    ensures Inv(RunRequests(c, qs, checksLink))
    decreases |qs|
  {
    if qs != [] {
      var q := qs[0];
      SetBothShadersKeepsInv(c, q.ps, q.vs, q.newName, q.linked, checksLink);
      RunKeepsInv(ApplyRequest(c, q, checksLink).cache, qs[1..], checksLink);
    }
  }

  /** The table only grows, and cached entries are never replaced. */
  lemma {:induction false} RunOnlyGrows(c: Cache, qs: seq<Request>, checksLink: bool)
    ensures forall k :: k in c.pshaders ==>
      k in RunRequests(c, qs, checksLink).pshaders && RunRequests(c, qs, checksLink).pshaders[k] == c.pshaders[k]
    decreases |qs|
  {
    if qs != [] {
      RunOnlyGrows(ApplyRequest(c, qs[0], checksLink).cache, qs[1..], checksLink);
    }
  }

  /** Each build adds one entry and nothing else does, so the number of
      builds over any sequence of requests is the number of pairs the table
      gained: every pair is built at most once. */
  lemma {:induction false} BuildsCountNewPairs(c: Cache, qs: seq<Request>, checksLink: bool)
    ensures |RunRequests(c, qs, checksLink).pshaders| == |c.pshaders| + Builds(c, qs, checksLink)
    decreases |qs|
  {
    if qs != [] {
      var q := qs[0];
      var s := ApplyRequest(c, q, checksLink);
      if s.path == Built {
        CacheMissInserts(c, q.ps, q.vs, q.newName, q.linked, checksLink);
      } else {
        assert s.cache.pshaders == c.pshaders;
      }
      BuildsCountNewPairs(s.cache, qs[1..], checksLink);
    }
  }
}
