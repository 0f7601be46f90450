/**
  `ProgramShaderCache::Init` and `ProgramShaderCache::Shutdown` over the whole
  state of the component: the program cache with its bound state, and the
  constant staging buffer, which exists only while uniform buffers are
  supported.
 */
module Session {
  import opened ShaderPair
  import opened ProgramCache
  import opened ConstantBuffer

  /** The backend capabilities `Init` and `Shutdown` consult: uniform buffer
      objects (`bSupportsGLSLUBO`) and program binaries kept in the disk cache
      (`bSupportsGLSLCache`). */
  datatype Caps = Caps(supportsUbo: bool, supportsBinaryCache: bool)

  /** Whether the staging buffer is allocated (`s_ubo_buffer` non-null). */
  datatype Ubo = NoUbo | HasUbo(staging: Staging)

  datatype Session = Session(cache: Cache, ubo: Ubo)

  /** The state at process start: nothing cached, nothing bound, no staging
      buffer. */
  const Start := Session(Empty, NoUbo)

  /** `Init`. With uniform buffers, the staging buffer is laid out from the
      two constant counts and the driver's offset alignment `align`, zeroed
      and marked dirty; without them it is left as it was. With the binary
      cache, the programs read back from disk, given as `restored`, are added
      to the table; without it the table is kept. Either way nothing is bound
      afterwards. */
  function Init(s: Session, caps: Caps, restored: map<PairKey, Entry>,
                psConstEnd: nat, vsConstEnd: nat, align: nat): (r: Session)
    requires caps.supportsUbo ==> align > 0
    ensures !caps.supportsBinaryCache ==> r.cache.pshaders == s.cache.pshaders
    ensures caps.supportsBinaryCache ==>
      && r.cache.pshaders.Keys == s.cache.pshaders.Keys + restored.Keys
      && (forall k :: k in restored ==> r.cache.pshaders[k] == restored[k])
      && (forall k :: k in s.cache.pshaders && k !in restored ==> r.cache.pshaders[k] == s.cache.pshaders[k])
    ensures r.cache.currentShaderProgram == 0 && r.cache.currentProgram == 0
    ensures caps.supportsUbo ==>
      && r.ubo.HasUbo?
      && Valid(r.ubo.staging)
      && r.ubo.staging.layout.vsDataOffset == RoundUp(psConstEnd * Vec4Bytes, align)
      && r.ubo.staging.layout.bufferSize
         == RoundUp(psConstEnd * Vec4Bytes, align) + RoundUp(vsConstEnd * Vec4Bytes, align)
      && (forall i :: 0 <= i < |r.ubo.staging.data| ==> r.ubo.staging.data[i] == 0)
      && r.ubo.staging.dirty
    ensures !caps.supportsUbo ==> r.ubo == s.ubo
  {
    var ubo := if caps.supportsUbo then HasUbo(InitStaging(psConstEnd, vsConstEnd, align)) else s.ubo;
    var table := if caps.supportsBinaryCache then s.cache.pshaders + restored else s.cache.pshaders;
    Session(InitCache(s.cache.(pshaders := table)), ubo)
  }

  /** The result of `Shutdown`, the GL calls it makes before destroying the
      entries, and the program names it deletes. */
  datatype Closed = Closed(session: Session, calls: seq<GlCall>, deleted: set<GLuint>)

  /** `Shutdown`. GL is told to use program 0, every cached program is
      deleted and the table cleared; with uniform buffers the staging buffer
      is freed. The bound key and bound program name are not reset. */
  function Shutdown(s: Session, caps: Caps): (r: Closed)
    ensures r.calls == [UseProgram(0)]
    ensures r.session.cache.pshaders == map[]
    ensures r.session.cache.currentShaderProgram == s.cache.currentShaderProgram
    ensures r.session.cache.currentProgram == s.cache.currentProgram
    ensures forall k :: k in s.cache.pshaders ==> s.cache.pshaders[k].progId in r.deleted
    ensures forall p :: p in r.deleted ==> exists k :: k in s.cache.pshaders && s.cache.pshaders[k].progId == p
    ensures r.session.ubo == if caps.supportsUbo then NoUbo else s.ubo
  {
    var t := ShutdownCache(s.cache);
    Closed(Session(t.cache, if caps.supportsUbo then NoUbo else s.ubo), t.calls, t.deleted)
  }

  /** `Shutdown` followed by `Init` leaves nothing bound, whatever was bound
      before, and a table holding exactly the programs restored from disk:
      none at all without the binary cache. When the restored entries sit
      under their own pairs' keys, the cache invariant holds again. */
  lemma ShutdownThenInitResets(s: Session, caps: Caps, restored: map<PairKey, Entry>,
                               psConstEnd: nat, vsConstEnd: nat, align: nat)
    requires caps.supportsUbo ==> align > 0
    ensures var r := Init(Shutdown(s, caps).session, caps, restored, psConstEnd, vsConstEnd, align);
      && r.cache.currentShaderProgram == 0 && r.cache.currentProgram == 0
      && r.cache.pshaders == (if caps.supportsBinaryCache then restored else map[])
      && (!caps.supportsBinaryCache ==> r.cache == Empty && Inv(r.cache))
      && (KeysMatch(Cache(restored, 0, 0)) ==> Inv(r.cache))
  {
    var r := Init(Shutdown(s, caps).session, caps, restored, psConstEnd, vsConstEnd, align);
    if caps.supportsBinaryCache {
      assert r.cache.pshaders == map[] + restored;
      assert map[] + restored == restored;
    }
  }

  /** A session: `Init`, the pair (7, 3) asked for twice, then `Shutdown`.
      The pair is built once, the second request changes nothing, and
      `Shutdown` deletes exactly the one program. */
  lemma BuildTwiceThenShutdown(caps: Caps, prog: GLuint, other: GLuint, checksLink: bool)
    ensures var s0 := Init(Start, caps, map[], 0, 0, 1);
      var r1 := SetBothShaders(s0.cache, 7, 3, prog, true, checksLink);
      var r2 := SetBothShaders(r1.cache, 7, 3, other, true, checksLink);
      && r1.path == Built && |r1.cache.pshaders| == 1
      && r2.path == AlreadyBound && r2.cache == r1.cache
      && r2.cache.currentProgram == prog
      && Shutdown(Session(r2.cache, s0.ubo), caps).calls == [UseProgram(0)]
      && Shutdown(Session(r2.cache, s0.ubo), caps).deleted == {prog}
  {
    var s0 := Init(Start, caps, map[], 0, 0, 1);
    assert s0.cache.pshaders == map[];
    NonZeroPairKey(7, 3);
    var r1 := SetBothShaders(s0.cache, 7, 3, prog, true, checksLink);
    assert r1.cache.pshaders.Keys == {CreatePair(7, 3)};
    var r2 := SetBothShaders(r1.cache, 7, 3, other, true, checksLink);
    var d := Shutdown(Session(r2.cache, s0.ubo), caps).deleted;
    assert prog in d;
  }
}
