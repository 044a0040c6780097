/**
 * The values a TextureImage works with (src/egg-palettize/textureImage.cxx):
 * texture properties and the .txa request, the pixels of a source image, the
 * source records keyed by get_source_key, and the rule by which
 * get_preferred_source picks one of them.
 */
module TextureSources {
  import opened Ordering
  import opened Wrappers

  // ---------------------------------------------------------------------
  // Properties and requests

  /** EggTexture::Format and EggTexture::FilterType: unspecified, or one of the named codes. */
  datatype Setting = Unspecified | Specified(code: nat)

  /** The fields of TextureProperties that TextureImage reads or writes. */
  datatype Properties = Properties(gotNumChannels: bool, numChannels: int,
                                   format: Setting, minfilter: Setting, magfilter: Setting)

  /** The fields of TextureRequest that post_txa_file consults. */
  datatype Request = Request(gotSize: bool, xSize: int, ySize: int,
                             gotNumChannels: bool, numChannels: int,
                             format: Setting, minfilter: Setting, magfilter: Setting)

  /** The requested settings that override the texture's own (textureImage.cxx:293-301). */
  function ApplyRequestedSettings(p: Properties, r: Request): (q: Properties)
    ensures q.gotNumChannels == p.gotNumChannels && q.numChannels == p.numChannels
    ensures q.format == (if r.format.Specified? then r.format else p.format)
    ensures q.minfilter == (if r.minfilter.Specified? then r.minfilter else p.minfilter)
    ensures q.magfilter == (if r.magfilter.Specified? then r.magfilter else p.magfilter)
  {
    var p1 := if r.format != Unspecified then p.(format := r.format) else p;
    var p2 := if r.minfilter != Unspecified then p1.(minfilter := r.minfilter) else p1;
    if r.magfilter != Unspecified then p2.(magfilter := r.magfilter) else p2
  }

  // ---------------------------------------------------------------------
  // Images and the two pixel probes

  datatype Pixel = Pixel(red: nat, green: nat, blue: nat, alpha: nat)

  /** A PNMImage: whether it holds an image, its rows of pixels, whether it has alpha, its maxval. */
  datatype Image = Image(valid: bool, rows: seq<seq<Pixel>>, hasAlpha: bool, maxval: nat)

  /** The empty PNMImage a TextureImage starts with. */
  const NoImage := Image(false, [], false, 255)

  predicate IsGrayPixel(v: Pixel)
  {
    v.red == v.green && v.red == v.blue
  }

  /** Every pixel has equal red, green and blue. */
  ghost predicate IsGrayscale(img: Image)
  {
    forall y, x :: 0 <= y < |img.rows| && 0 <= x < |img.rows[y]| ==> IsGrayPixel(img.rows[y][x])
  }

  /** Every alpha value is the maximum, i.e. fully opaque. */
  ghost predicate IsOpaque(img: Image)
  {
    forall y, x :: 0 <= y < |img.rows| && 0 <= x < |img.rows[y]| ==> img.rows[y][x].alpha == img.maxval
  }

  /** The scan at textureImage.cxx:794-803, stopping at the first coloured pixel. */
  method ScanGrayscale(img: Image) returns (gray: bool)
    ensures gray <==> IsGrayscale(img)
  {
    var y := 0;
    while y < |img.rows|
      invariant 0 <= y <= |img.rows|
      invariant forall y', x :: 0 <= y' < y && 0 <= x < |img.rows[y']| ==> IsGrayPixel(img.rows[y'][x])
    {
      var x := 0;
      while x < |img.rows[y]|
        invariant 0 <= x <= |img.rows[y]|
        invariant forall x' :: 0 <= x' < x ==> IsGrayPixel(img.rows[y][x'])
      {
        var v := img.rows[y][x];
        if v.red != v.green || v.red != v.blue {
          return false;
        }
        x := x + 1;
      }
      y := y + 1;
    }
    return true;
  }

  /** The scan at textureImage.cxx:839-846, stopping at the first non-opaque pixel. */
  method ScanOpaque(img: Image) returns (allOpaque: bool)
    ensures allOpaque <==> IsOpaque(img)
  {
    var y := 0;
    while y < |img.rows|
      invariant 0 <= y <= |img.rows|
      invariant forall y', x :: 0 <= y' < y && 0 <= x < |img.rows[y']| ==> img.rows[y'][x].alpha == img.maxval
    {
      var x := 0;
      while x < |img.rows[y]|
        invariant 0 <= x <= |img.rows[y]|
        invariant forall x' :: 0 <= x' < x ==> img.rows[y][x'].alpha == img.maxval
      {
        if img.rows[y][x].alpha != img.maxval {
          return false;
        }
        x := x + 1;
      }
      y := y + 1;
    }
    return true;
  }

  /** What a probe decides: whether to drop channels, and the flag it remembers for later sessions. */
  datatype ProbeOutcome = ProbeOutcome(drop: bool, forced: bool)

  /**
   * consider_grayscale (textureImage.cxx:775-808).  `cached` is
   * "!_read_source_image && _ever_read_image": then the remembered flag decides
   * without looking at pixels.
   */
  ghost function GrayscaleProbe(cached: bool, forced: bool, img: Image): (o: ProbeOutcome)
    ensures cached ==> o.forced == forced && o.drop == forced
    ensures !cached && img.valid ==> o.drop == o.forced == IsGrayscale(img)
    ensures !cached && !img.valid ==> !o.drop && o.forced == forced
  {
    if cached then ProbeOutcome(forced, forced)
    else if !img.valid then ProbeOutcome(false, forced)
    else ProbeOutcome(IsGrayscale(img), IsGrayscale(img))
  }

  /** consider_unalpha (textureImage.cxx:819-852): as above, and an image without alpha is left alone. */
  ghost function UnalphaProbe(cached: bool, forced: bool, img: Image): (o: ProbeOutcome)
    ensures cached ==> o.forced == forced && o.drop == forced
    ensures !cached && img.valid && img.hasAlpha ==> o.drop == o.forced == IsOpaque(img)
    ensures !cached && !(img.valid && img.hasAlpha) ==> !o.drop && o.forced == forced
  {
    if cached then ProbeOutcome(forced, forced)
    else if !img.valid || !img.hasAlpha then ProbeOutcome(false, forced)
    else ProbeOutcome(IsOpaque(img), IsOpaque(img))
  }

  /**
   * The channel count after the probes of post_txa_file
   * (textureImage.cxx:279-290): the grayscale probe runs on 3 or 4 channels
   * and drops two, then the unalpha probe runs on 2 or 4 channels and drops one.
   */
  function ProbedChannels(n: int, grayDrop: bool, alphaDrop: bool): int
  {
    var n1 := if (n == 3 || n == 4) && grayDrop then n - 2 else n;
    if (n1 == 2 || n1 == 4) && alphaDrop then n1 - 1 else n1
  }

  /** The probes never leave fewer than one channel, and never add one. */
  lemma ProbedChannelsRange(n: int, grayDrop: bool, alphaDrop: bool)
    requires 1 <= n <= 4
    ensures 1 <= ProbedChannels(n, grayDrop, alphaDrop) <= n
  {
  }

  /** Which counts the probes can turn into which: they only remove colour and alpha. */
  lemma ProbedChannelsTable(n: int, grayDrop: bool, alphaDrop: bool)
    ensures ProbedChannels(4, grayDrop, alphaDrop) ==
              (if grayDrop && alphaDrop then 1 else if grayDrop then 2 else if alphaDrop then 3 else 4)
    ensures ProbedChannels(3, grayDrop, alphaDrop) == (if grayDrop then 1 else 3)
    ensures ProbedChannels(2, grayDrop, alphaDrop) == (if alphaDrop then 1 else 2)
    ensures ProbedChannels(1, grayDrop, alphaDrop) == 1
  {
  }

  // ---------------------------------------------------------------------
  // Source records

  /**
   * What the disk says about a source file: whether it exists, whether its
   * header can be read and what it gives, its modification time, and the
   * image a read would produce.
   */
  datatype SourceFile = SourceFile(onDisk: bool, headerOk: bool, xSize: int, ySize: int, numChannels: int,
                                   properties: Properties, mtime: int, image: Image)

  /** A SourceTextureImage: its filenames, the number of egg references, and its file. */
  datatype SourceImage = SourceImage(filename: string, alphaFilename: string, eggCount: nat, file: SourceFile)

  /** get_source_key (textureImage.cxx:942-948), given the names after make_bam_filename. */
  function SourceKey(f: string, a: string): (k: string)
    ensures |k| == |f| + 1 + |a| && k[|f|] == ':'
    ensures k[..|f|] == f && k[|f| + 1..] == a
  {
    f + ":" + a
  }

  /** Two keys coincide only for the same filenames, provided the color filename has no ':'. */
  lemma SourceKeyInjective(f1: string, a1: string, f2: string, a2: string)
    requires ':' !in f1 && ':' !in f2
    requires SourceKey(f1, a1) == SourceKey(f2, a2)
    ensures f1 == f2 && a1 == a2
  {
  }

  /** Without that proviso the key does not tell the pairs apart. */
  lemma SourceKeyAmbiguous()
    ensures SourceKey("a:", "b") == SourceKey("a", ":b")
  {
  }

  // ---------------------------------------------------------------------
  // get_preferred_source

  /** Whether some source is referenced by an egg file (the loop at textureImage.cxx:439-446). */
  ghost predicate AnyReferenced(sources: map<string, SourceImage>)
  {
    exists k :: k in sources && sources[k].eggCount > 0
  }

  /** A source that can be measured: it exists and its header reads. */
  predicate Measurable(s: SourceImage)
  {
    s.file.onDisk && s.file.headerOk
  }

  function Area(s: SourceImage): int
  {
    s.file.xSize * s.file.ySize
  }

  /** Whether the candidate replaces the best so far: larger, or as large and newer (:457-472). */
  predicate Supersedes(c: SourceImage, best: SourceImage)
  {
    Area(c) > Area(best) || (Area(c) == Area(best) && c.file.mtime > best.file.mtime)
  }

  /** The left fold of the selection loop (textureImage.cxx:451-475) over keys `ks`. */
  ghost function ScanBest(ks: seq<string>, sources: map<string, SourceImage>): (r: Option<string>)
    ensures r.Some? ==> r.value in ks && r.value in sources
    decreases |ks|
  {
    if ks == [] then None
    else
      var k := ks[|ks| - 1];
      var b := ScanBest(ks[..|ks| - 1], sources);
      if k !in sources || !Measurable(sources[k]) then b
      else if b.None? then Some(k)
      else if Supersedes(sources[k], sources[b.value]) then Some(k)
      else b
  }

  /**
   * The key get_preferred_source settles on, as written: the guard
   * "&& !any_referenced" on the selection loop means that as soon as one
   * source is referenced, the loop is skipped and the first source in key order
   * is taken.  Otherwise the largest measurable source, newest among equals;
   * failing that, the first source.
   */
  ghost function PreferredAsWritten(sources: map<string, SourceImage>): Option<string>
  {
    if sources == map[] then None
    else if AnyReferenced(sources) then Some(MinStr(sources.Keys))
    else
      var b := ScanBest(SortedStrs(sources.Keys), sources);
      if b.Some? then b else Some(MinStr(sources.Keys))
  }

  /** The fold ends on a measurable source that is maximal by (area, modification time). */
  lemma {:induction false} ScanBestSpec(ks: seq<string>, sources: map<string, SourceImage>)
    requires forall k :: k in ks ==> k in sources
    ensures ScanBest(ks, sources).Some? <==> exists k :: k in ks && Measurable(sources[k])
    ensures ScanBest(ks, sources).Some? ==>
              var b := ScanBest(ks, sources).value;
              b in ks && Measurable(sources[b]) &&
              forall k :: k in ks && Measurable(sources[k]) ==> !Supersedes(sources[k], sources[b])
    decreases |ks|
  {
    if ks != [] {
      var init := ks[..|ks| - 1];
      var k := ks[|ks| - 1];
      assert ks == init + [k];
      assert forall j :: j in init ==> j in ks;
      ScanBestSpec(init, sources);
      var b := ScanBest(init, sources);
      if b.Some? && Measurable(sources[k]) && Supersedes(sources[k], sources[b.value]) {
        forall j | j in ks && Measurable(sources[j]) ensures !Supersedes(sources[j], sources[k]) {
          if j != k { assert j in init; }
        }
      }
    }
  }

  /** The first loop of get_preferred_source (textureImage.cxx:439-446), stopping at the first referenced source. */
  method ScanReferenced(ks: seq<string>, sources: map<string, SourceImage>) returns (anyReferenced: bool)
    requires forall k :: k in sources <==> k in ks
    ensures anyReferenced <==> AnyReferenced(sources)
  {
    anyReferenced := false;
    var i := 0;
    while i < |ks| && !anyReferenced
      invariant 0 <= i <= |ks|
      invariant anyReferenced <==> exists j :: 0 <= j < i && sources[ks[j]].eggCount > 0
    {
      if sources[ks[i]].eggCount > 0 {
        anyReferenced := true;
      }
      i := i + 1;
    }
  }

  /**
   * The selection loop of get_preferred_source (textureImage.cxx:451-475),
   * guard as written: it runs only while no source is referenced.
   */
  method ScanLargest(ks: seq<string>, sources: map<string, SourceImage>, anyReferenced: bool)
    returns (best: Option<string>)
    requires forall k :: k in ks ==> k in sources
    ensures !anyReferenced ==> best == ScanBest(ks, sources)
    ensures anyReferenced ==> best == None
  {
    best := None;
    var bestSize := 0;
    var i := 0;
    while i < |ks| && !anyReferenced
      invariant 0 <= i <= |ks|
      invariant best == ScanBest(ks[..i], sources)
      invariant anyReferenced ==> best == None
      invariant best.Some? ==> bestSize == Area(sources[best.value])
    {
      assert ks[..i + 1][..i] == ks[..i];
      var source := sources[ks[i]];
      if source.eggCount > 0 || !anyReferenced {
        if source.file.onDisk && source.file.headerOk {
          var sourceSize := source.file.xSize * source.file.ySize;
          if best.None? {
            best, bestSize := Some(ks[i]), sourceSize;
          } else if sourceSize > bestSize {
            best, bestSize := Some(ks[i]), sourceSize;
          } else if sourceSize == bestSize && source.file.mtime > sources[best.value].file.mtime {
            best, bestSize := Some(ks[i]), sourceSize;
          }
        }
      }
      i := i + 1;
    }
    if !anyReferenced {
      assert ks[..i] == ks;
    }
  }

  /** get_preferred_source's choice (textureImage.cxx:437-485), over the sources in key order. */
  method SelectPreferred(sources: map<string, SourceImage>) returns (best: Option<string>)
    ensures best == PreferredAsWritten(sources)
  {
    var ks := EnumerateStrs(sources.Keys);
    SortedStrsSpec(sources.Keys);
    var anyReferenced := ScanReferenced(ks, sources);
    best := ScanLargest(ks, sources, anyReferenced);
    if best.None? && |ks| > 0 {
      var first := LeastStr(sources.Keys);
      best := Some(first);
    }
  }

  /** Whenever the texture has a source, one is preferred, and it is one of the sources. */
  lemma PreferredExists(sources: map<string, SourceImage>)
    requires sources != map[]
    ensures PreferredAsWritten(sources).Some?
    ensures PreferredAsWritten(sources).value in sources
  {
    SortedStrsSpec(sources.Keys);
    if !AnyReferenced(sources) {
      ScanBestSpec(SortedStrs(sources.Keys), sources);
    }
  }

  /**
   * When no source is referenced and some source is measurable, the preferred
   * one is measurable, and no measurable source is larger, or as large and newer.
   */
  lemma PreferredIsLargestNewest(sources: map<string, SourceImage>)
    requires !AnyReferenced(sources)
    requires exists k :: k in sources && Measurable(sources[k])
    ensures PreferredAsWritten(sources).Some?
    ensures var p := PreferredAsWritten(sources).value;
            p in sources && Measurable(sources[p]) &&
            forall k :: k in sources && Measurable(sources[k]) ==> !Supersedes(sources[k], sources[p])
  {
    SortedStrsSpec(sources.Keys);
    var ks := SortedStrs(sources.Keys);
    ScanBestSpec(ks, sources);
    var k :| k in sources && Measurable(sources[k]);
    assert k in ks;
  }

  /** As soon as any source is referenced, the first source in key order is preferred. */
  lemma PreferredWhenReferenced(sources: map<string, SourceImage>)
    requires AnyReferenced(sources)
    ensures PreferredAsWritten(sources) == Some(MinStr(sources.Keys))
  {
  }

  /**
   * That first source need not be referenced: here "a" is preferred although
   * only "b" is referenced, and "b" is also the larger.
   */
  lemma PreferredMayBeUnreferenced()
    ensures var file := SourceFile(true, true, 1, 1, 3, Properties(true, 3, Unspecified, Unspecified, Unspecified), 0, NoImage);
            var big := file.(xSize := 8, ySize := 8);
            var sources := map["a" := SourceImage("a", "", 0, file), "b" := SourceImage("b", "", 1, big)];
            PreferredAsWritten(sources) == Some("a") && sources["a"].eggCount == 0 &&
            Area(sources["b"]) > Area(sources["a"])
  {
    var file := SourceFile(true, true, 1, 1, 3, Properties(true, 3, Unspecified, Unspecified, Unspecified), 0, NoImage);
    var big := file.(xSize := 8, ySize := 8);
    var sources := map["a" := SourceImage("a", "", 0, file), "b" := SourceImage("b", "", 1, big)];
    assert sources["b"].eggCount > 0;
    assert StrLess("a", "b");
    assert IsLeastStr("a", sources.Keys);
    LeastStrUnique("a", MinStr(sources.Keys), sources.Keys);
  }
}
