/** The cached reference image per architecture, read from launch templates that may fail. */
module AmiResolver {

  import opened Clock
  import opened Wrappers

  const AMI_CACHE_TTL: nat := 5 * MINUTE
  const AMI_TERMINATE_FRESHNESS: nat := 2 * AMI_CACHE_TTL

  /** The EC2 architectures that have a launch template. */
  datatype Arch = ARM64 | X86_64

  const ARCHITECTURES := [ARM64, X86_64]

  datatype Ami = Ami(imageId: string, version: int)

  /** `learnedAt` is when a refresh last read anything; `resolvedAt` is per architecture. */
  datatype Cache = Cache(images: map<Arch, Ami>, learnedAt: Instant, resolvedAt: map<Arch, Instant>)

  const EMPTY_CACHE := Cache(map[], 0, map[])

  predicate Usable(c: Cache, now: Instant) {
    c.images != map[] && now - c.learnedAt < AMI_CACHE_TTL
  }

  /**
   A call within five minutes of the last that learned something changes nothing. Any other takes
   over, stamped now, every template that names an image, and leaves the rest as it was known.
   */
  lemma CurrentMeans(c: Cache, now: Instant, answers: map<Arch, Ami>, arch: Arch)
    ensures var c' := AfterCurrent(c, now, answers);
            if c.images != map[] && now < c.learnedAt + 5 * MINUTE then c' == c
            else
              && c'.learnedAt == (if exists a :: a in answers && answers[a].imageId != "" then now else c.learnedAt)
              && if arch in answers && answers[arch].imageId != "" then
                   && arch in c'.images && c'.images[arch] == answers[arch]
                   && arch in c'.resolvedAt && c'.resolvedAt[arch] == now
                 else
                   && (arch in c'.images <==> arch in c.images) && (arch in c.images ==> c'.images[arch] == c.images[arch])
                   && (arch in c'.resolvedAt <==> arch in c.resolvedAt)
                   && (arch in c.resolvedAt ==> c'.resolvedAt[arch] == c.resolvedAt[arch])
  {
    var got := Readable(answers);
    if a :| a in answers && answers[a].imageId != "" {
      assert a in got;
    }
    if arch in answers && answers[arch].imageId != "" { assert arch in got; }
  }

  /** The templates that could be read, by architecture. */
  function Readable(answers: map<Arch, Ami>): map<Arch, Ami> {
    map a | a in answers && answers[a].imageId != "" :: answers[a]
  }

  function Stamped(got: map<Arch, Ami>, now: Instant): map<Arch, Instant> {
    map a | a in got :: now
  }

  /** What a call of Current at this moment reads: nothing while the cache is usable. */
  function Resolved(c: Cache, now: Instant, answers: map<Arch, Ami>): map<Arch, Ami> {
    if Usable(c, now) then map[] else Readable(answers)
  }

  function AfterCurrent(c: Cache, now: Instant, answers: map<Arch, Ami>): Cache {
    var got := Resolved(c, now, answers);
    if got == map[] then c
    else Cache(c.images + got, now, c.resolvedAt + Stamped(got, now))
  }

  class AMIResolver {
    var cached: Option<map<Arch, Ami>>
    var cachedAt: Instant
    var resolvedAt: map<Arch, Instant>

    function State(): Cache
      reads this
    {
      Cache(if cached.Some? then cached.value else map[], cachedAt, resolvedAt)
    }

    /** A stored map is never empty. */
    ghost predicate Valid()
      reads this
    {
      cached.Some? ==> cached.value != map[]
    }

    constructor ()
      ensures Valid() && State() == EMPTY_CACHE
    {
      cached, cachedAt, resolvedAt := None, 0, map[];
    }

    method Current(now: Instant, answers: map<Arch, Ami>) returns (images: Option<map<Arch, Ami>>)
      requires Valid()
      modifies this
      ensures Valid() && State() == AfterCurrent(old(State()), now, answers)
      ensures images == cached
    {
      if cached.Some? && now - cachedAt < AMI_CACHE_TTL { return cached; }
      var resolved := ReadTemplates(answers);
      var merged := (if cached.Some? then cached.value else map[]) + resolved;
      if merged == map[] { return None; }
      resolvedAt := resolvedAt + Stamped(resolved, now);
      cached := Some(merged);
      if resolved != map[] { cachedAt := now; }
      return Some(merged);
    }

    method CurrentImageIDs(now: Instant, answers: map<Arch, Ami>) returns (ids: Option<map<Arch, string>>)
      requires Valid()
      modifies this
      ensures Valid() && State() == AfterCurrent(old(State()), now, answers)
      ensures ids == ImageIDs(State(), now)
      ensures ids.Some? <==> cached.Some?
      ensures ids.Some? ==> forall a :: a in ids.value <==> a in cached.value && a in resolvedAt && now <= resolvedAt[a] + 10 * MINUTE
      ensures ids.Some? ==> forall a :: a in ids.value ==> ids.value[a] == cached.value[a].imageId
    {
      var current := Current(now, answers);
      if current.None? { return None; }
      var out := ConfirmedIDs(State(), now);
      return Some(out);
    }

    /** In name order: arm64 before x86_64. */
    method UnresolvedArchs(now: Instant) returns (out: seq<Arch>)
      requires Valid()
      ensures out == OnlyIf(Unresolved(State(), ARM64, now), ARM64) + OnlyIf(Unresolved(State(), X86_64, now), X86_64)
      ensures forall a :: a in out <==> cached.None? || a !in cached.value || a !in resolvedAt || resolvedAt[a] + 10 * MINUTE < now
      ensures |out| <= 2 && (|out| == 2 ==> out == [ARM64, X86_64])
    {
      out := [];
      for i := 0 to |ARCHITECTURES|
        invariant i == 0 ==> out == []
        invariant i == 1 ==> out == OnlyIf(Unresolved(State(), ARM64, now), ARM64)
        invariant i == 2 ==> out == OnlyIf(Unresolved(State(), ARM64, now), ARM64) + OnlyIf(Unresolved(State(), X86_64, now), X86_64)
      {
        var arch := ARCHITECTURES[i];
        if cached.None? || arch !in cached.value || arch !in resolvedAt || now - resolvedAt[arch] > AMI_TERMINATE_FRESHNESS {
          out := out + [arch];
        }
      }
      forall a ensures a in out <==> Unresolved(State(), a, now) {
        match a {
          case ARM64 =>
          case X86_64 =>
        }
      }
    }
  }

  function OnlyIf(wanted: bool, arch: Arch): seq<Arch> {
    if wanted then [arch] else []
  }

  /** Reads every architecture's template; one that fails or names no image is skipped. */
  method ReadTemplates(answers: map<Arch, Ami>) returns (resolved: map<Arch, Ami>)
    ensures resolved == Readable(answers)
  {
    resolved := map[];
    for i := 0 to |ARCHITECTURES|
      invariant forall a :: a in resolved <==> a in Readable(answers) && a in ARCHITECTURES[..i]
      invariant forall a :: a in resolved ==> resolved[a] == answers[a]
    {
      var arch := ARCHITECTURES[i];
      assert ARCHITECTURES[..i + 1] == ARCHITECTURES[..i] + [arch];
      if arch in answers && answers[arch].imageId != "" {
        resolved := resolved[arch := answers[arch]];
      }
    }
    assert ARCHITECTURES[..|ARCHITECTURES|] == ARCHITECTURES;
    AllListed();
  }

  lemma AllListed()
    ensures forall a: Arch :: a in ARCHITECTURES
  {
    forall a: Arch ensures a in ARCHITECTURES {
      match a {
        case ARM64 => assert ARCHITECTURES[0] == a;
        case X86_64 => assert ARCHITECTURES[1] == a;
      }
    }
  }

  /** No image that is recent enough to act on. */
  predicate Unresolved(c: Cache, arch: Arch, now: Instant) {
    arch !in c.images || !Confirmed(c, arch, now)
  }

  /** Confirmed against its template recently enough to act on. */
  predicate Confirmed(c: Cache, arch: Arch, now: Instant) {
    arch in c.resolvedAt && now - c.resolvedAt[arch] <= AMI_TERMINATE_FRESHNESS
  }

  function ConfirmedImages(c: Cache, now: Instant): map<Arch, string> {
    map a | a in c.images && Confirmed(c, a, now) :: c.images[a].imageId
  }

  function ImageIDs(c: Cache, now: Instant): Option<map<Arch, string>> {
    if c.images == map[] then None else Some(ConfirmedImages(c, now))
  }

  /** The images in any order, skipping those not confirmed lately. */
  method ConfirmedIDs(c: Cache, now: Instant) returns (out: map<Arch, string>)
    ensures out == ConfirmedImages(c, now)
  {
    out := map[];
    var archs := c.images.Keys;
    while archs != {}
      invariant archs <= c.images.Keys
      invariant forall a :: a in out <==> a in c.images && a !in archs && Confirmed(c, a, now)
      invariant forall a :: a in out ==> out[a] == c.images[a].imageId
      decreases |archs|
    {
      var a :| a in archs;
      archs := archs - {a};
      if a in c.resolvedAt && now - c.resolvedAt[a] <= AMI_TERMINATE_FRESHNESS {
        out := out[a := c.images[a].imageId];
      }
    }
    assert out.Keys == ConfirmedImages(c, now).Keys;
  }

  // ----- over runs of calls, one at a time

  datatype Run = Run(caches: seq<Cache>, at: seq<Instant>, answers: seq<map<Arch, Ami>>)

  ghost predicate IsRun(r: Run) {
    && |r.at| == |r.answers| && |r.caches| == |r.at| + 1 && r.caches[0] == EMPTY_CACHE
    && (forall i, j :: 0 <= i < j < |r.at| ==> r.at[i] <= r.at[j])
    && (forall i :: 0 <= i < |r.at| ==> IsCall(r, i))
  }

  ghost predicate IsCall(r: Run, i: nat)
    requires i < |r.at| == |r.answers| && |r.caches| == |r.at| + 1
  {
    r.caches[i + 1] == AfterCurrent(r.caches[i], r.at[i], r.answers[i])
  }

  /** The call at step i read this architecture's template. */
  predicate ReadAt(r: Run, i: nat, arch: Arch)
    requires i < |r.at| == |r.answers| < |r.caches|
  {
    arch in Resolved(r.caches[i], r.at[i], r.answers[i])
  }

  /** A call either reads an architecture afresh or leaves what is known of it. */
  lemma ReadOrKept(c: Cache, now: Instant, answers: map<Arch, Ami>, arch: Arch)
    ensures var c' := AfterCurrent(c, now, answers);
            if arch in Resolved(c, now, answers)
            then arch in c'.images && c'.images[arch] == answers[arch] && arch in c'.resolvedAt && c'.resolvedAt[arch] == now
            else Lookup(c'.images, arch) == Lookup(c.images, arch) && Lookup(c'.resolvedAt, arch) == Lookup(c.resolvedAt, arch)
  {
  }

  /** Step k read the template, and no later step before i did. */
  ghost predicate LastRead(r: Run, k: nat, i: nat, arch: Arch)
    requires i <= |r.at| == |r.answers| < |r.caches|
  {
    k < i && ReadAt(r, k, arch) && forall m :: k < m < i ==> !ReadAt(r, m, arch)
  }

  /** A cached image is the latest one read, and its confirmation time is when. */
  lemma {:induction false} ImageOrigin(r: Run, i: nat, arch: Arch) returns (k: nat)
    requires IsRun(r) && i < |r.caches| && arch in r.caches[i].images
    ensures LastRead(r, k, i, arch)
    ensures r.answers[k][arch] == r.caches[i].images[arch]
    ensures Lookup(r.caches[i].resolvedAt, arch) == Some(r.at[k])
  {
    if i > 0 {
      assert IsCall(r, i - 1);
      ReadOrKept(r.caches[i - 1], r.at[i - 1], r.answers[i - 1], arch);
      if ReadAt(r, i - 1, arch) {
        k := i - 1;
      } else {
        assert arch in r.caches[i - 1].images by {
          assert Lookup(r.caches[i - 1].images, arch) == Lookup(r.caches[i].images, arch);
        }
        k := ImageOrigin(r, i - 1, arch);
      }
    }
  }

  /**
   An image id handed out for destroying instances is the latest one read from its
   architecture's template, and was read at most ten minutes before.
   */
  lemma ImageIDsAreFresh(r: Run, i: nat, arch: Arch)
    requires IsRun(r) && i < |r.at|
    requires var ids := ImageIDs(r.caches[i + 1], r.at[i]); ids.Some? && arch in ids.value
    ensures exists k: nat :: LastRead(r, k, i + 1, arch) && k <= i && r.at[i] <= r.at[k] + 10 * MINUTE && arch in r.answers[k]
                        && r.answers[k][arch].imageId == ImageIDs(r.caches[i + 1], r.at[i]).value[arch]
  {
    var k := ImageOrigin(r, i + 1, arch);
  }

  /** Every call is answered by both templates. */
  ghost predicate AlwaysReadable(r: Run) {
    forall i, a: Arch :: 0 <= i < |r.answers| ==> a in r.answers[i] && r.answers[i][a].imageId != ""
  }

  /**
   While the templates can be read, what Current hands out was read less than five minutes before,
   and there is an image for every architecture.
   */
  lemma CurrentIsFresh(r: Run, i: nat, arch: Arch)
    requires IsRun(r) && i < |r.at| && AlwaysReadable(r)
    ensures arch in r.caches[i + 1].images
    ensures exists k: nat :: LastRead(r, k, i + 1, arch) && k <= i && r.at[i] < r.at[k] + 5 * MINUTE && arch in r.answers[k]
                        && r.answers[k][arch] == r.caches[i + 1].images[arch]
  {
    RefreshedTogether(r, i, arch);
    var k := ImageOrigin(r, i + 1, arch);
  }

  /** A cache that was always refreshed in full carries one time for everything. */
  lemma {:induction false} RefreshedTogether(r: Run, i: nat, arch: Arch)
    requires IsRun(r) && i < |r.at| && AlwaysReadable(r)
    ensures arch in r.caches[i + 1].images
    ensures Lookup(r.caches[i + 1].resolvedAt, arch) == Some(r.caches[i + 1].learnedAt)
    ensures r.at[i] - r.caches[i + 1].learnedAt < 5 * MINUTE
  {
    assert IsCall(r, i);
    ReadOrKept(r.caches[i], r.at[i], r.answers[i], arch);
    if i > 0 { RefreshedTogether(r, i - 1, arch); }
    assert !Usable(r.caches[i], r.at[i]) ==> arch in Readable(r.answers[i]);
  }

  /** Nothing known is withheld: a read within ten minutes is handed out. */
  lemma FreshReadsHandedOut(r: Run, i: nat, k: nat, arch: Arch)
    requires IsRun(r) && k <= i < |r.at| && ReadAt(r, k, arch) && r.at[i] - r.at[k] <= 10 * MINUTE
    ensures var ids := ImageIDs(r.caches[i + 1], r.at[i]); ids.Some? && arch in ids.value
  {
    assert IsCall(r, k);
    NeverForgotten(r, k + 1, i + 1, arch);
    var m := ImageOrigin(r, i + 1, arch);
    assert k <= m;
  }

  /** An architecture once resolved never disappears. */
  lemma {:induction false} NeverForgotten(r: Run, a: nat, b: nat, arch: Arch)
    requires IsRun(r) && a <= b < |r.caches| && arch in r.caches[a].images
    ensures arch in r.caches[b].images && r.caches[b].images != map[]
  {
    if a < b {
      NeverForgotten(r, a, b - 1, arch);
      assert IsCall(r, b - 1);
      ReadOrKept(r.caches[b - 1], r.at[b - 1], r.answers[b - 1], arch);
    }
  }
}
