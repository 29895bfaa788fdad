/** `JellifyBlurPerformanceOptimizer`: a bounded cache of blurred bitmaps,
    keyed by source size, radius and blur type, in front of the size
    optimizer and the fallback box blur. */
module PerformanceOptimizer {
  import opened Options
  import opened Pixels
  import opened BoxFilter
  import opened SizeOptimizer
  import opened CacheKey

  /** `MAX_CACHE_SIZE` */
  const MaxCacheSize: nat := 10

  /** A cache entry: the stored copy of a blurred bitmap, when it was last
      stored or read (milliseconds), and how often it was stored or read. */
  datatype CachedBitmap = CachedBitmap(bitmap: Bitmap, timestamp: int, accessCount: int)

  /** A request to blur a bitmap; the completion callback of the
      asynchronous entry point is not part of the model. */
  datatype BlurRequest = BlurRequest(sourceBitmap: Bitmap, blurRadius: real, blurType: string)

  type Cache = map<string, CachedBitmap>

  /** `generateCacheKey`: the source width and height, the radius as
      `floatText` renders it (Kotlin's `Float.toString`), and the blur type.
      The key can be read back into exactly those four fields. */
  function GenerateCacheKey(request: BlurRequest, floatText: real -> string): (key: string)
    ensures NoUnderscore(floatText(request.blurRadius)) ==>
              ParseKey(key) == Some(KeyFields(request.sourceBitmap.width, request.sourceBitmap.height,
                                              floatText(request.blurRadius), request.blurType))
  {
    var fields := KeyFields(request.sourceBitmap.width, request.sourceBitmap.height,
                            floatText(request.blurRadius), request.blurType);
    if NoUnderscore(fields.radiusText) then ParseKeyText(fields); KeyText(fields) else KeyText(fields)
  }

  /** Two requests share a cache key exactly when their sources have the same
      size and their radius texts and blur types agree; the pixels of the
      source play no part, so such requests are answered from the same entry. */
  lemma SharedCacheKey(r1: BlurRequest, r2: BlurRequest, floatText: real -> string)
    requires NoUnderscore(floatText(r1.blurRadius)) && NoUnderscore(floatText(r2.blurRadius))
    ensures GenerateCacheKey(r1, floatText) == GenerateCacheKey(r2, floatText) <==>
              r1.sourceBitmap.width == r2.sourceBitmap.width && r1.sourceBitmap.height == r2.sourceBitmap.height &&
              floatText(r1.blurRadius) == floatText(r2.blurRadius) && r1.blurType == r2.blurType
  {
    var f1 := KeyFields(r1.sourceBitmap.width, r1.sourceBitmap.height, floatText(r1.blurRadius), r1.blurType);
    var f2 := KeyFields(r2.sourceBitmap.width, r2.sourceBitmap.height, floatText(r2.blurRadius), r2.blurType);
    KeyTextInjective(f1, f2);
  }

  // ----- Eviction and insertion, as relations between cache states -----

  /** The entry at key has the smallest timestamp in the cache: the one
      `minByOrNull { it.value.timestamp }` may pick. */
  predicate IsOldest(cache: Cache, key: string) {
    key in cache && forall k :: k in cache ==> cache[key].timestamp <= cache[k].timestamp
  }

  /** `evictLeastRecentlyUsed`: an empty cache stays empty; otherwise one
      entry with the smallest timestamp is removed and nothing else changes. */
  ghost predicate Evicted(before: Cache, after: Cache) {
    if before == map[] then after == before
    else exists victim :: IsOldest(before, victim) && after == before - {victim}
  }

  /** `cacheBlurResult`: when the cache already holds MAX_CACHE_SIZE or more
      entries, one is evicted first; then the entry is stored under key. */
  ghost predicate Inserted(before: Cache, after: Cache, key: string, entry: CachedBitmap) {
    if |before| >= MaxCacheSize then exists mid :: Evicted(before, mid) && after == mid[key := entry]
    else after == before[key := entry]
  }

  lemma RemoveOne(m: Cache, k: string)
    requires k in m
    ensures |m - {k}| == |m| - 1
  {
    var rest := m - {k};
    assert rest.Keys == m.Keys - {k};
    assert m.Keys == rest.Keys + {k};
  }

  /** Eviction from a non-empty cache removes exactly one entry, an oldest one. */
  lemma EvictedRemovesOne(before: Cache, after: Cache)
    requires before != map[] && Evicted(before, after)
    ensures |after| == |before| - 1
    ensures exists victim :: IsOldest(before, victim) && victim !in after &&
              forall k :: k in before && k != victim ==> k in after && after[k] == before[k]
  {
    var victim :| IsOldest(before, victim) && after == before - {victim};
    RemoveOne(before, victim);
  }

  /** After an insert the cache holds at most MAX_CACHE_SIZE entries, the new
      entry is stored under its key, and every entry that stays is unchanged. */
  lemma InsertedBounded(before: Cache, after: Cache, key: string, entry: CachedBitmap)
    requires |before| <= MaxCacheSize && Inserted(before, after, key, entry)
    ensures |after| <= MaxCacheSize
    ensures key in after && after[key] == entry
    ensures forall k :: k in after && k != key ==> k in before && after[k] == before[k]
  {
    if |before| >= MaxCacheSize {
      var mid :| Evicted(before, mid) && after == mid[key := entry];
      assert before != map[] by { assert |before| != 0; }
      var victim :| IsOldest(before, victim) && mid == before - {victim};
      EvictThenStore(before, victim, key, entry);
    }
  }

  /** Removing one entry and then storing one leaves the size at most where
      it was, and every other entry that stays is one from before. */
  lemma EvictThenStore(before: Cache, victim: string, key: string, entry: CachedBitmap)
    requires victim in before
    ensures |(before - {victim})[key := entry]| <= |before|
    ensures forall k :: k in (before - {victim})[key := entry] && k != key ==>
              k in before && (before - {victim})[key := entry][k] == before[k]
  {
    RemoveOne(before, victim);
    StoreGrowsByAtMostOne(before - {victim}, key, entry);
  }

  lemma StoreGrowsByAtMostOne(m: Cache, key: string, entry: CachedBitmap)
    ensures |m[key := entry]| <= |m| + 1
  {
    assert m[key := entry].Keys == m.Keys + {key};
  }

  /** An insert into a cache with room keeps every earlier entry. */
  lemma InsertedKeepsAllWhenRoom(before: Cache, after: Cache, key: string, entry: CachedBitmap)
    requires |before| < MaxCacheSize && Inserted(before, after, key, entry)
    ensures forall k :: k in before && k != key ==> k in after && after[k] == before[k]
    ensures |after| == if key in before then |before| else |before| + 1
  {
  }

  // ----- The pipeline behind a cache miss -----

  /** `Bitmap.createScaledBitmap`, given sides of at least 1, returns a
      bitmap of exactly the size asked for. For a side of 0 it throws, and
      the model never calls it with one. */
  ghost predicate HonoursSize(resample: (Bitmap, nat, nat) -> Bitmap) {
    forall b: Bitmap, w: nat, h: nat :: w >= 1 && h >= 1 ==> resample(b, w, h).width == w && resample(b, w, h).height == h
  }

  /** A plan to scale to a size with a side of 0, which `createScaledBitmap`
      rejects with an `IllegalArgumentException`. */
  predicate HasEmptySide(plan: SizePlan) {
    plan.Rescale? && (plan.width == 0 || plan.height == 0)
  }

  /** `bitmap` is what `plan` asks for: the source itself, or a bitmap of the
      planned size. */
  predicate HasPlannedSize(bitmap: Bitmap, source: Bitmap, plan: SizePlan) {
    match plan
    case Keep => bitmap == source
    case Rescale(width, height) => bitmap.width == width && bitmap.height == height
  }

  /** `optimizeBitmapForBlur` as written: the source itself, or the source
      scaled by `resample` (`Bitmap.createScaledBitmap`) to the planned size;
      None when a planned side is 0 and the platform call throws. */
  function OptimizeBitmapForBlurAsWritten(source: Bitmap, resample: (Bitmap, nat, nat) -> Bitmap): (optimized: Option<Bitmap>)
    requires HonoursSize(resample)
    ensures optimized.None? <==> HasEmptySide(OptimizedSizeAsWritten(source.width, source.height))
    ensures optimized.Some? ==> HasPlannedSize(optimized.value, source, OptimizedSizeAsWritten(source.width, source.height))
  {
    match OptimizedSizeAsWritten(source.width, source.height)
    case Keep => Some(source)
    case Rescale(width, height) => if width == 0 || height == 0 then None else Some(resample(source, width, height))
  }

  /** `optimizeBitmapForBlur` with the corrected size rule, which never plans
      a side of 0. */
  function OptimizeBitmapForBlur(source: Bitmap, resample: (Bitmap, nat, nat) -> Bitmap): (optimized: Bitmap)
    requires HonoursSize(resample)
    ensures HasPlannedSize(optimized, source, OptimizedSize(source.width, source.height))
  {
    match OptimizedSize(source.width, source.height)
    case Keep => source
    case Rescale(width, height) => resample(source, width, height)
  }

  /** For a bitmap with an area, the corrected optimizer returns a bitmap
      whose sides lie between 1 and the source's, and it agrees with the
      optimizer as written wherever that one succeeds. */
  lemma OptimizedBitmapNeverGrows(source: Bitmap, resample: (Bitmap, nat, nat) -> Bitmap)
    requires HonoursSize(resample)
    ensures source.width > 0 && source.height > 0 ==>
              1 <= OptimizeBitmapForBlur(source, resample).width <= source.width &&
              1 <= OptimizeBitmapForBlur(source, resample).height <= source.height
    ensures OptimizeBitmapForBlurAsWritten(source, resample).Some? ==>
              OptimizeBitmapForBlurAsWritten(source, resample).value == OptimizeBitmapForBlur(source, resample)
  {
    OptimizedSizeAgrees(source.width, source.height);
    if source.width > 0 && source.height > 0 {
      OptimizedNeverGrows(source.width, source.height);
    }
  }

  /** What a cache miss computes as written: nothing when the optimizer
      throws; otherwise the optimized bitmap, unchanged when the radius is
      at most 0 and through `performFallbackBlur` otherwise. */
  function BlurPipelineAsWritten(source: Bitmap, radius: real, resample: (Bitmap, nat, nat) -> Bitmap): (blurred: Option<Bitmap>)
    requires HonoursSize(resample)
    ensures blurred.None? <==> OptimizeBitmapForBlurAsWritten(source, resample).None?
  {
    match OptimizeBitmapForBlurAsWritten(source, resample)
    case None => None
    case Some(optimized) =>
      var blurred: Bitmap := if radius <= 0.0 then optimized else FallbackBlur(optimized, radius);
      Some(blurred)
  }

  /** A cache miss over the corrected optimizer, which always yields a bitmap. */
  function BlurPipeline(source: Bitmap, radius: real, resample: (Bitmap, nat, nat) -> Bitmap): (blurred: Bitmap)
    requires HonoursSize(resample)
    ensures match OptimizedSize(source.width, source.height)
            case Keep => blurred.width == source.width && blurred.height == source.height
            case Rescale(width, height) => blurred.width == width && blurred.height == height
  {
    var optimized := OptimizeBitmapForBlur(source, resample);
    if radius <= 0.0 then optimized else FallbackBlur(optimized, radius)
  }

  /** The miss as written fails exactly when the planned size has a side of
      0, and otherwise yields what the corrected pipeline yields. */
  lemma PipelineAgrees(source: Bitmap, radius: real, resample: (Bitmap, nat, nat) -> Bitmap)
    requires HonoursSize(resample)
    ensures BlurPipelineAsWritten(source, radius, resample).None? <==> HasEmptySide(OptimizedSizeAsWritten(source.width, source.height))
    ensures BlurPipelineAsWritten(source, radius, resample).Some? ==>
              BlurPipelineAsWritten(source, radius, resample).value == BlurPipeline(source, radius, resample)
  {
    OptimizedBitmapNeverGrows(source, resample);
  }

  /** For a bitmap with an area, each side of what the corrected miss yields
      lies between 1 and the source's. */
  lemma PipelineSize(source: Bitmap, radius: real, resample: (Bitmap, nat, nat) -> Bitmap)
    requires HonoursSize(resample)
    ensures source.width > 0 && source.height > 0 ==>
              1 <= BlurPipeline(source, radius, resample).width <= source.width &&
              1 <= BlurPipeline(source, radius, resample).height <= source.height
  {
    OptimizedBitmapNeverGrows(source, resample);
  }

  /** As written, a bitmap one pixel wide and more than 512 tall within the
      pixel limit makes the miss fail: nothing is blurred and nothing is
      returned. */
  lemma PipelineFailsOnThinBitmap(source: Bitmap, radius: real, resample: (Bitmap, nat, nat) -> Bitmap)
    requires HonoursSize(resample)
    requires source.width == 1 && SoftMaxSide < source.height <= MaxBitmapSize
    ensures BlurPipelineAsWritten(source, radius, resample) == None
  {
    AsWrittenEmptiesThinBitmaps(source.height);
  }

  /** Any radius below 1 yields the optimized bitmap with no blur at all. */
  lemma PipelineBelowOne(source: Bitmap, radius: real, resample: (Bitmap, nat, nat) -> Bitmap)
    requires HonoursSize(resample)
    requires radius < 1.0
    ensures BlurPipelineAsWritten(source, radius, resample) == OptimizeBitmapForBlurAsWritten(source, resample)
    ensures BlurPipeline(source, radius, resample) == OptimizeBitmapForBlur(source, resample)
  {
  }

  /** A small bitmap is blurred at its own size: the miss succeeds, keeps the
      source's dimensions and, at radius 1 or more, is the box blur of its
      pixels. */
  lemma PipelineKeepsSmall(source: Bitmap, radius: real, resample: (Bitmap, nat, nat) -> Bitmap)
    requires HonoursSize(resample)
    requires source.width * source.height <= MaxBitmapSize
    requires source.width <= SoftMaxSide && source.height <= SoftMaxSide
    ensures BlurPipelineAsWritten(source, radius, resample).Some?
    ensures BlurPipelineAsWritten(source, radius, resample).value.width == source.width
    ensures BlurPipelineAsWritten(source, radius, resample).value.height == source.height
    ensures radius >= 1.0 ==>
              BlurPipelineAsWritten(source, radius, resample).value.pixels ==
              BoxBlur(source.pixels, source.width, source.height, KernelRadius(radius))
  {
  }

  /** A small bitmap of one colour comes back unchanged at every radius. */
  lemma PipelineUniformSmall(source: Bitmap, radius: real, resample: (Bitmap, nat, nat) -> Bitmap, p: Argb)
    requires HonoursSize(resample)
    requires source.width * source.height <= MaxBitmapSize
    requires source.width <= SoftMaxSide && source.height <= SoftMaxSide
    requires forall i :: 0 <= i < |source.pixels| ==> source.pixels[i] == p
    ensures BlurPipelineAsWritten(source, radius, resample) == Some(source)
  {
    FallbackBlurUniform(source, radius, p);
  }

  /** The miss branch of `performBlurSync`: scale the source to the planned
      size (None when that throws), then return it unchanged when the radius
      is at most 0 and otherwise through `performFallbackBlur`. */
  method BlurOnMiss(request: BlurRequest, resample: (Bitmap, nat, nat) -> Bitmap) returns (blurred: Option<Bitmap>)
    requires HonoursSize(resample)
    ensures blurred == BlurPipelineAsWritten(request.sourceBitmap, request.blurRadius, resample)
  {
    var optimized := OptimizeBitmapForBlurAsWritten(request.sourceBitmap, resample);
    if optimized.None? {
      return None;
    }
    var optimizedBitmap := optimized.value;
    if request.blurRadius <= 0.0 {
      blurred := Some(optimizedBitmap);
    } else {
      var result := PerformFallbackBlur(optimizedBitmap, request.blurRadius);
      blurred := Some(result);
    }
  }

  /** A hit under `key`: the stored bitmap is returned, and only its entry
      changes, to one more access at time `now`. */
  ghost predicate HitRecorded(before: Cache, after: Cache, key: string, now: int, result: Option<Bitmap>) {
    key in before && result == Some(before[key].bitmap) &&
    after == before[key := CachedBitmap(before[key].bitmap, now, before[key].accessCount + 1)]
  }

  /** A miss under `key`: no result leaves the cache as it was, and a result
      is stored as a new entry with access count 1 at time `now`. */
  ghost predicate MissStored(before: Cache, after: Cache, key: string, now: int, result: Option<Bitmap>) {
    (result.None? ==> after == before) &&
    (result.Some? ==> Inserted(before, after, key, CachedBitmap(result.value, now, 1)))
  }

  // ----- The optimizer object -----

  class BlurPerformanceOptimizer {
    /** `bitmapCache`: cache key to entry. */
    var bitmapCache: Cache

    /** The cache never holds more than MAX_CACHE_SIZE entries, and every
        entry has been stored or read at least once. */
    ghost predicate Valid()
      reads this
    {
      |bitmapCache| <= MaxCacheSize &&
      forall key :: key in bitmapCache ==> bitmapCache[key].accessCount >= 1
    }

    constructor()
      ensures Valid() && bitmapCache == map[]
    {
      bitmapCache := map[];
    }

    /** `bitmapCache.minByOrNull { it.value.timestamp }`: a key whose entry
        has the smallest timestamp, or None for an empty cache. The map's
        iteration order decides between equal timestamps, so any of them may
        come back. */
    method OldestKey() returns (oldest: Option<string>)
      ensures oldest.None? <==> bitmapCache == map[]
      ensures oldest.Some? ==> IsOldest(bitmapCache, oldest.value)
    {
      oldest := None;
      var keys := bitmapCache.Keys;
      while keys != {}
        invariant keys <= bitmapCache.Keys
        invariant oldest.None? <==> keys == bitmapCache.Keys
        invariant oldest.Some? ==> oldest.value in bitmapCache
        invariant oldest.Some? ==>
                    forall k :: k in bitmapCache && k !in keys ==> bitmapCache[oldest.value].timestamp <= bitmapCache[k].timestamp
        decreases |keys|
      {
        var k :| k in keys;
        if oldest.None? || bitmapCache[k].timestamp < bitmapCache[oldest.value].timestamp {
          oldest := Some(k);
        }
        keys := keys - {k};
      }
      if oldest.None? {
        assert bitmapCache.Keys == {};
      }
    }

    /** `evictLeastRecentlyUsed` */
    method EvictLeastRecentlyUsed()
      requires Valid()
      modifies this
      ensures Valid()
      ensures Evicted(old(bitmapCache), bitmapCache)
    {
      var oldest := OldestKey();
      if oldest.Some? {
        bitmapCache := bitmapCache - {oldest.value};
        assert IsOldest(old(bitmapCache), oldest.value);
      }
    }

    /** `cacheBlurResult`: evict when full, then store the bitmap with the
        current time and access count 1. */
    method CacheBlurResult(key: string, bitmap: Bitmap, now: int)
      requires Valid()
      modifies this
      ensures Valid()
      ensures Inserted(old(bitmapCache), bitmapCache, key, CachedBitmap(bitmap, now, 1))
    {
      if |bitmapCache| >= MaxCacheSize {
        EvictLeastRecentlyUsed();
        EvictedRemovesOne(old(bitmapCache), bitmapCache);
      }
      bitmapCache := bitmapCache[key := CachedBitmap(bitmap, now, 1)];
      InsertedBounded(old(bitmapCache), bitmapCache, key, CachedBitmap(bitmap, now, 1));
    }

    /** `clearCache` */
    method ClearCache()
      modifies this
      ensures Valid()
      ensures bitmapCache == map[]
    {
      bitmapCache := map[];
    }

    /** The hit branch of `performBlurSync`: the entry's access count goes up
        by one, its timestamp becomes `now`, and its bitmap is returned. */
    method RecordHit(key: string, now: int) returns (bitmap: Bitmap)
      requires Valid() && key in bitmapCache
      modifies this
      ensures Valid()
      ensures bitmap == old(bitmapCache)[key].bitmap
      ensures bitmapCache == old(bitmapCache)[key := CachedBitmap(bitmap, now, old(bitmapCache)[key].accessCount + 1)]
    {
      var cached := bitmapCache[key];
      bitmapCache := bitmapCache[key := CachedBitmap(cached.bitmap, now, cached.accessCount + 1)];
      assert bitmapCache.Keys == old(bitmapCache).Keys;
      bitmap := cached.bitmap;
    }

    /** The miss branch of `performBlurSync` with its store: the pipeline's
        result is cached under `key`; when the optimizer throws, nothing is
        cached. */
    method MissAndStore(key: string, request: BlurRequest, now: int, resample: (Bitmap, nat, nat) -> Bitmap)
      returns (result: Option<Bitmap>)
      requires Valid() && HonoursSize(resample)
      modifies this
      ensures Valid()
      ensures result == BlurPipelineAsWritten(request.sourceBitmap, request.blurRadius, resample)
      ensures result.None? ==> bitmapCache == old(bitmapCache)
      ensures result.Some? ==> Inserted(old(bitmapCache), bitmapCache, key, CachedBitmap(result.value, now, 1))
    {
      result := BlurOnMiss(request, resample);
      if result.Some? {
        CacheBlurResult(key, result.value, now);
      }
    }

    /** `performBlurSync` once the cache key is computed. A hit returns the
        stored bitmap, counts one more access and refreshes the timestamp; a
        miss runs the pipeline and stores its result. When the optimizer
        throws, the call ends with no result and the cache as it was. `now`
        is the clock reading for this call. */
    method PerformBlurForKey(cacheKey: string, request: BlurRequest, now: int,
                             resample: (Bitmap, nat, nat) -> Bitmap) returns (result: Option<Bitmap>)
      requires Valid() && HonoursSize(resample)
      modifies this
      ensures Valid()
      ensures cacheKey in old(bitmapCache) ==> HitRecorded(old(bitmapCache), bitmapCache, cacheKey, now, result)
      ensures cacheKey !in old(bitmapCache) ==>
                result == BlurPipelineAsWritten(request.sourceBitmap, request.blurRadius, resample) &&
                MissStored(old(bitmapCache), bitmapCache, cacheKey, now, result)
    {
      if cacheKey in bitmapCache {
        var bitmap := RecordHit(cacheKey, now);
        result := Some(bitmap);
      } else {
        result := MissAndStore(cacheKey, request, now, resample);
      }
    }

    /** `performBlurSync`: the lookup and the miss above, under the key
        `generateCacheKey` gives the request. */
    method PerformBlurSync(request: BlurRequest, now: int, floatText: real -> string,
                           resample: (Bitmap, nat, nat) -> Bitmap) returns (result: Option<Bitmap>)
      requires Valid() && HonoursSize(resample)
      modifies this
      ensures Valid()
      ensures GenerateCacheKey(request, floatText) in old(bitmapCache) ==>
                HitRecorded(old(bitmapCache), bitmapCache, GenerateCacheKey(request, floatText), now, result)
      ensures GenerateCacheKey(request, floatText) !in old(bitmapCache) ==>
                result == BlurPipelineAsWritten(request.sourceBitmap, request.blurRadius, resample) &&
                MissStored(old(bitmapCache), bitmapCache, GenerateCacheKey(request, floatText), now, result)
    {
      var cacheKey := GenerateCacheKey(request, floatText);
      result := PerformBlurForKey(cacheKey, request, now, resample);
    }
  }
}
