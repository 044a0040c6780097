/**
 * The source-image cache of a TextureImage (src/egg-palettize/textureImage.cxx)
 * as a value: the sources, the preferred source once chosen, the image held
 * and whether it was read in this session or ever, and the two flags the
 * pixel probes remember between sessions.  get_preferred_source,
 * read_source_image, consider_grayscale, consider_unalpha and the probe phase
 * of post_txa_file are transitions of this value; the TextureImage methods
 * are proved to make exactly these transitions.
 */
module SourceCaches {
  import opened Wrappers
  import opened TextureSources

  datatype SourceCache = SourceCache(sources: map<string, SourceImage>, preferred: Option<string>,
                                     readImage: bool, everRead: bool, held: Image,
                                     forcedGrayscale: bool, forcedUnalpha: bool)

  /** The cache of a texture with no sources yet (textureImage.cxx:27-36). */
  function EmptyCache(): SourceCache
  {
    SourceCache(map[], None, false, false, NoImage, false, false)
  }

  /** The remembered preferred source, if any, is one of the sources. */
  ghost predicate CacheOk(c: SourceCache)
  {
    c.preferred.Some? ==> c.preferred.value in c.sources
  }

  /**
   * get_source's effect when the key is new (textureImage.cxx:398-405): the
   * source is added and the preferred source and the image read are forgotten.
   */
  function WithSource(c: SourceCache, key: string, s: SourceImage): SourceCache
  {
    c.(sources := c.sources[key := s], preferred := None, readImage := false)
  }

  /** get_preferred_source's answer (textureImage.cxx:417-487): the cached source, or a fresh choice. */
  ghost function PreferredOf(c: SourceCache): Option<string>
  {
    if c.preferred.Some? then c.preferred else PreferredAsWritten(c.sources)
  }

  /** The cache once get_preferred_source has run: the choice is remembered. */
  ghost function Filled(c: SourceCache): SourceCache
  {
    c.(preferred := PreferredOf(c))
  }

  /** The image read_source_image returns (textureImage.cxx:562-573). */
  ghost function ImageOf(c: SourceCache): Image
  {
    if c.readImage then c.held
    else
      match PreferredOf(c)
      case Some(k) => if k in c.sources then c.sources[k].file.image else c.held
      case None => c.held
  }

  /** The cache once read_source_image has run: the preferred source is read unless an image is held. */
  ghost function AfterRead(c: SourceCache): SourceCache
  {
    if c.readImage then c
    else c.(preferred := PreferredOf(c), readImage := true, everRead := true, held := ImageOf(c))
  }

  /** A later session that has not read the image: the probes reuse their remembered flags. */
  predicate Reuses(c: SourceCache)
  {
    !c.readImage && c.everRead
  }

  ghost function GrayOf(c: SourceCache): ProbeOutcome
  {
    GrayscaleProbe(Reuses(c), c.forcedGrayscale, ImageOf(c))
  }

  ghost function UnalphaOf(c: SourceCache): ProbeOutcome
  {
    UnalphaProbe(Reuses(c), c.forcedUnalpha, ImageOf(c))
  }

  /** consider_grayscale's effect on the cache (textureImage.cxx:775-808). */
  ghost function AfterGrayscale(c: SourceCache): SourceCache
  {
    (if Reuses(c) then c else AfterRead(c)).(forcedGrayscale := GrayOf(c).forced)
  }

  /** consider_unalpha's effect on the cache (textureImage.cxx:819-852). */
  ghost function AfterUnalpha(c: SourceCache): SourceCache
  {
    (if Reuses(c) then c else AfterRead(c)).(forcedUnalpha := UnalphaOf(c).forced)
  }

  /** Whether post_txa_file runs the grayscale probe, given the properties taken from the source (:279-283). */
  predicate GrayscaleRuns(p: Properties, r: Request)
  {
    !r.gotNumChannels && p.gotNumChannels && (p.numChannels == 3 || p.numChannels == 4)
  }

  /** Whether it then runs the unalpha probe, on the count the grayscale probe left (:285-290). */
  predicate UnalphaRuns(p: Properties, r: Request, og: ProbeOutcome)
  {
    var n := if GrayscaleRuns(p, r) && og.drop then p.numChannels - 2 else p.numChannels;
    !r.gotNumChannels && p.gotNumChannels && (n == 2 || n == 4)
  }

  /** The cache after the probe phase of post_txa_file, starting from properties `p`. */
  ghost function AfterProbes(c: SourceCache, p: Properties, r: Request): SourceCache
  {
    var c1 := if GrayscaleRuns(p, r) then AfterGrayscale(c) else c;
    if UnalphaRuns(p, r, GrayOf(c)) then AfterUnalpha(c1) else c1
  }

  /** The channel settings the probe phase arrives at: the requested count, or the probed one (:270-291). */
  function ChannelSettings(p: Properties, r: Request, og: ProbeOutcome, oa: ProbeOutcome): Properties
  {
    if r.gotNumChannels then p.(gotNumChannels := true, numChannels := r.numChannels)
    else if p.gotNumChannels then p.(numChannels := ProbedChannels(p.numChannels, og.drop, oa.drop))
    else p
  }

  /** The preferred source's file, when its header gives a size (get_size at :250-259). */
  ghost function MeasuredOf(c: SourceCache): Option<SourceFile>
  {
    match PreferredOf(c)
    case Some(k) => if k in c.sources && c.sources[k].file.headerOk then Some(c.sources[k].file) else None
    case None => None
  }

  /** The properties once the measured source has set the channel count. */
  function Measured(p: Properties, m: Option<SourceFile>): Properties
  {
    if m.Some? then p.(gotNumChannels := true, numChannels := m.value.numChannels) else p
  }

  // ---------------------------------------------------------------------
  // Properties of the transitions

  /**
   * A new source makes the next get_preferred_source choose afresh among all
   * the sources, and the next read_source_image read the new choice.
   */
  lemma WithSourceRechooses(c: SourceCache, key: string, s: SourceImage)
    requires CacheOk(c)
    ensures CacheOk(WithSource(c, key, s))
    ensures PreferredOf(WithSource(c, key, s)) == PreferredAsWritten(c.sources[key := s])
    ensures PreferredOf(WithSource(c, key, s)).Some?
    ensures Reuses(WithSource(c, key, s)) == c.everRead
    ensures ImageOf(WithSource(c, key, s)) == c.sources[key := s][PreferredOf(WithSource(c, key, s)).value].file.image
  {
    assert key in c.sources[key := s];
    PreferredExists(c.sources[key := s]);
  }

  /** Remembering the preferred source changes no answer the cache gives, and remembering twice is once. */
  lemma FilledKeeps(c: SourceCache)
    ensures PreferredOf(Filled(c)) == PreferredOf(c) && ImageOf(Filled(c)) == ImageOf(c)
    ensures GrayOf(Filled(c)) == GrayOf(c) && UnalphaOf(Filled(c)) == UnalphaOf(c)
    ensures MeasuredOf(Filled(c)) == MeasuredOf(c)
    ensures Filled(Filled(c)) == Filled(c)
    ensures c.sources != map[] && (c.preferred.Some? ==> c.preferred.value in c.sources) ==>
              Filled(c).preferred.Some? && Filled(c).preferred.value in c.sources
  {
    if c.sources != map[] && c.preferred.None? {
      PreferredExists(c.sources);
    }
  }

  /** The image is read at most once: reading again returns the image already held. */
  lemma ReadOnce(c: SourceCache)
    ensures AfterRead(AfterRead(c)) == AfterRead(c)
    ensures AfterRead(c).held == ImageOf(c) && ImageOf(AfterRead(c)) == ImageOf(c)
    ensures AfterRead(c).readImage && AfterRead(c).sources == c.sources
    ensures PreferredOf(AfterRead(c)) == PreferredOf(c)
  {
  }

  /** The grayscale probe leaves the unalpha probe the same image and the same choice to reuse its flag. */
  lemma GrayscaleKeepsUnalpha(c: SourceCache)
    ensures UnalphaOf(AfterGrayscale(c)) == UnalphaOf(c)
    ensures Reuses(AfterGrayscale(c)) == Reuses(c)
    ensures PreferredOf(AfterGrayscale(c)) == PreferredOf(c)
  {
  }

  /**
   * The probe phase reads the image exactly when a probe runs in a session
   * that does not reuse the flags; a session that reuses them holds the
   * image it held, so no pixels are looked at.
   */
  lemma ProbesReadOnlyWhenNeeded(c: SourceCache, p: Properties, r: Request)
    ensures var runs := GrayscaleRuns(p, r) || UnalphaRuns(p, r, GrayOf(c));
            AfterProbes(c, p, r).readImage == (c.readImage || (runs && !Reuses(c)))
    ensures Reuses(c) ==> AfterProbes(c, p, r).held == c.held
    ensures AfterProbes(c, p, r).sources == c.sources
    ensures r.gotNumChannels ==> AfterProbes(c, p, r) == c
  {
    GrayscaleKeepsUnalpha(c);
  }

  /**
   * A probe drops channels only on evidence: the flag remembered from an
   * earlier session, or every pixel of the image being gray (opaque).
   */
  lemma ProbesDropOnEvidence(c: SourceCache)
    ensures GrayOf(c).drop ==> (Reuses(c) && c.forcedGrayscale) || (ImageOf(c).valid && IsGrayscale(ImageOf(c)))
    ensures UnalphaOf(c).drop ==>
              (Reuses(c) && c.forcedUnalpha) || (ImageOf(c).valid && ImageOf(c).hasAlpha && IsOpaque(ImageOf(c)))
    ensures !Reuses(c) ==> GrayOf(c).forced == GrayOf(c).drop || !ImageOf(c).valid
  {
  }

  /**
   * The channel count post_txa_file settles on: the requested one when there
   * is a request, otherwise the measured count less what the probes drop,
   * never fewer than one and never more than before.
   */
  lemma ChannelSettingsCount(p: Properties, r: Request, og: ProbeOutcome, oa: ProbeOutcome)
    ensures var q := ChannelSettings(p, r, og, oa);
            q.format == p.format && q.minfilter == p.minfilter && q.magfilter == p.magfilter &&
            q.gotNumChannels == (r.gotNumChannels || p.gotNumChannels) &&
            (r.gotNumChannels ==> q.numChannels == r.numChannels) &&
            (!r.gotNumChannels && p.gotNumChannels && 1 <= p.numChannels <= 4 ==> 1 <= q.numChannels <= p.numChannels) &&
            (!r.gotNumChannels && !og.drop && !oa.drop ==> q == p)
  {
    if !r.gotNumChannels && p.gotNumChannels && 1 <= p.numChannels <= 4 {
      ProbedChannelsRange(p.numChannels, og.drop, oa.drop);
    }
  }
}
