/**
 * TextureImage (src/egg-palettize/textureImage.cxx): one texture as the
 * palettizer knows it across sessions.  It records the egg files that use it,
 * chooses the palette groups it must be placed in, keeps one placement per
 * group, keeps its source images and the caches derived from them, settles its
 * properties after the .txa file is read, and keeps standalone copies
 * ("dests") for placements that are not on a palette.
 *
 * What the texture asks of other objects is appended to `events`.  The
 * dependency level and egg count of a group, the filename a dest would get,
 * make_bam_filename and TextureProperties::fully_define belong to other
 * classes; they are parameters of the methods that consult them.
 */
module Textures {
  import opened Ordering
  import opened Wrappers
  import opened GroupCover
  import opened Placements
  import opened DestDiff
  import opened TextureSources
  import opened SourceCaches

  ghost predicate NoDuplicateEggs(eggs: seq<EggRef>)
  {
    forall i, j :: 0 <= i < j < |eggs| ==> eggs[i] != eggs[j]
  }


  class TextureImage {
    const name: string

    /** _egg_files: the egg files that reference the texture, each once. */
    var eggFiles: seq<EggRef>
    /** Groups named for this texture in the .txa file (set by the .txa matching). */
    var explicitlyAssignedGroups: set<GroupId>
    var actualAssignedGroups: set<GroupId>
    var placement: map<GroupId, Placement>
    /** The id the next placement made by PaletteGroup::prepare receives. */
    var nextPlacementId: nat
    var events: seq<Event>

    /**
     * _sources, _preferred_source, _read_source_image, _ever_read_image,
     * _source_image, _forced_grayscale and _forced_unalpha, kept together.
     */
    var cache: SourceCache
    var gotDestImage: bool
    var isSurprise: bool

    var properties: Properties
    var preTxaProperties: Properties
    /** _request, as the .txa matching leaves it. */
    var request: Request
    var sizeKnown: bool
    var xSize: int
    var ySize: int

    var dests: map<string, Dest>

    ghost predicate Valid()
      reads this`placement, this`actualAssignedGroups, this`nextPlacementId, this`eggFiles
      reads this`cache
    {
      placement.Keys == actualAssignedGroups &&
      PlacementsValid(placement, nextPlacementId) &&
      AllNonEmpty(eggFiles) && NoDuplicateEggs(eggFiles) &&
      CacheOk(cache)
    }

    /** The preferred source, once chosen, is one of the sources; there is one exactly when there are sources. */
    lemma PreferredInSources()
      requires Valid()
      ensures PreferredOf(cache).Some? ==> PreferredOf(cache).value in cache.sources
      ensures cache.sources != map[] <==> PreferredOf(cache).Some?
    {
      if cache.sources != map[] {
        PreferredExists(cache.sources);
      }
    }

    /** The constructor (textureImage.cxx:27-36); the name, properties and request come from the palettizer. */
    constructor(name: string, properties: Properties, request: Request)
      ensures Valid()
      ensures this.name == name && eggFiles == [] && explicitlyAssignedGroups == {}
      ensures actualAssignedGroups == {} && placement == map[] && nextPlacementId == 0 && events == []
      ensures cache == EmptyCache() && !gotDestImage && isSurprise
      ensures this.properties == properties && preTxaProperties == properties && this.request == request
      ensures !sizeKnown && dests == map[]
    {
      this.name := name;
      eggFiles := [];
      explicitlyAssignedGroups := {};
      actualAssignedGroups := {};
      placement := map[];
      nextPlacementId := 0;
      events := [];
      cache := EmptyCache();
      gotDestImage := false;
      isSurprise := true;
      this.properties := properties;
      preTxaProperties := properties;
      this.request := request;
      sizeKnown := false;
      xSize := 0;
      ySize := 0;
      dests := map[];
    }

    // -------------------------------------------------------------------
    // Egg files and groups

    /**
     * note_egg_file (textureImage.cxx:46-50): the egg joins the set.  The
     * nassertv returns early for an egg with no complete groups.
     */
    method NoteEggFile(egg: EggRef)
      requires Valid()
      modifies this`eggFiles
      ensures Valid()
      ensures forall e :: e in eggFiles <==> e in old(eggFiles) || (e == egg && egg.completeGroups != {})
    {
      if egg.completeGroups == {} {
        return;
      }
      if egg !in eggFiles {
        eggFiles := eggFiles + [egg];
      }
    }

    /** get_placement (textureImage.cxx:192-201). */
    function GetPlacement(g: GroupId): (r: Option<Placement>)
      reads this
      requires Valid()
      ensures r.Some? <==> g in actualAssignedGroups
      ensures r.Some? ==> r.value.group == g && r.value.id < nextPlacementId
    {
      if g in placement then Some(placement[g]) else None
    }

    /**
     * assign_to_groups (textureImage.cxx:708-765): placements of groups kept
     * survive unchanged, new groups are prepared, dropped groups are deleted.
     */
    method AssignToGroups(groups: set<GroupId>)
      requires Valid()
      modifies this`placement, this`actualAssignedGroups, this`nextPlacementId, this`events
      ensures Valid()
      ensures actualAssignedGroups == groups
      ensures |old(events)| <= |events| && events[..|old(events)|] == old(events)
      ensures Reassigned(groups, old(placement), placement, old(nextPlacementId), nextPlacementId,
                         events[|old(events)|..])
    {
      var after, next, evs := Reconcile(groups, placement, nextPlacementId);
      placement, nextPlacementId, actualAssignedGroups := after, next, groups;
      events := events + evs;
      assert events[|old(events)|..] == evs;
    }

    /**
     * assign_groups (textureImage.cxx:60-164): with no egg files the texture
     * leaves every group; otherwise it joins the groups chosen by the explicit
     * assignments and the greedy cover.  Afterwards every egg file finds the
     * texture in one of its complete groups, and only in groups some egg file
     * asked for.
     */
    method AssignGroups(level: GroupId -> int, share: GroupId -> int)
      requires Valid()
      modifies this`placement, this`actualAssignedGroups, this`nextPlacementId, this`events
      ensures Valid()
      ensures actualAssignedGroups == AssignedGroups(eggFiles, explicitlyAssignedGroups, level, share)
      ensures forall e :: e in eggFiles ==> e.completeGroups * actualAssignedGroups != {}
      ensures actualAssignedGroups <= UnionOf(eggFiles)
      ensures |old(events)| <= |events| && events[..|old(events)|] == old(events)
      ensures Reassigned(actualAssignedGroups, old(placement), placement, old(nextPlacementId), nextPlacementId,
                         events[|old(events)|..])
    {
      AssignedCoversEveryEgg(eggFiles, explicitlyAssignedGroups, level, share);
      AssignedWithinRequested(eggFiles, explicitlyAssignedGroups, level, share);
      if |eggFiles| == 0 {
        AssignToGroups({});
        return;
      }
      var groups := ChooseGroups(eggFiles, explicitlyAssignedGroups, level, share);
      AssignToGroups(groups);
    }

    /** force_replace (textureImage.cxx:211-216): every placement, in group order, is asked to re-place. */
    method ForceReplacePlacements()
      requires Valid()
      modifies this`events
      ensures events == old(events) + ForceEvents(SortedNats(placement.Keys), placement)
    {
      var gs := EnumerateNats(placement.Keys);
      var i := 0;
      while i < |gs|
        invariant 0 <= i <= |gs|
        invariant events == old(events) + ForceEvents(gs[..i], placement)
      {
        assert gs[..i + 1][..i] == gs[..i];
        var g := gs[i];
        if g in placement {
          events := events + [ForceReplace(g, placement[g].id)];
        }
        i := i + 1;
      }
      assert gs[..|gs|] == gs;
    }

    // -------------------------------------------------------------------
    // Source images

    /**
     * get_source (textureImage.cxx:390-408): get-or-create by source key.
     * Creating a source clears the preferred source and both image caches;
     * finding one changes nothing.  `bam` is make_bam_filename and `disk`
     * what the new source would find on disk.
     */
    method GetSource(filename: string, alphaFilename: string, bam: string -> string, disk: SourceFile)
      returns (key: string)
      requires Valid()
      modifies this`cache, this`gotDestImage
      ensures Valid()
      ensures key == SourceKey(bam(filename), bam(alphaFilename)) && key in cache.sources
      ensures key in old(cache.sources) ==> cache == old(cache) && gotDestImage == old(gotDestImage)
      ensures key !in old(cache.sources) ==>
                cache == WithSource(old(cache), key, SourceImage(filename, alphaFilename, 0, disk)) && !gotDestImage
    {
      key := SourceKey(bam(filename), bam(alphaFilename));
      if key in cache.sources {
        return;
      }
      cache := cache.(sources := cache.sources[key := SourceImage(filename, alphaFilename, 0, disk)],
                      preferred := None, readImage := false);
      gotDestImage := false;
    }

    /**
     * get_preferred_source (textureImage.cxx:417-487): the cached source if
     * there is one, otherwise the selection, which is then cached.  It is
     * absent only when there are no sources.
     */
    method GetPreferredSource() returns (source: Option<string>)
      requires Valid()
      modifies this`cache
      ensures Valid()
      ensures cache == Filled(old(cache)) && source == cache.preferred
      ensures source.Some? <==> cache.sources != map[]
      ensures source.Some? ==> source.value in cache.sources
    {
      PreferredInSources();
      if cache.preferred.Some? {
        return cache.preferred;
      }
      source := SelectPreferred(cache.sources);
      cache := cache.(preferred := source);
    }

    // -------------------------------------------------------------------
    // The source image and the pixel probes

    /** read_source_image (textureImage.cxx:562-573): the preferred source is read at most once. */
    method ReadSourceImage() returns (img: Image)
      requires Valid()
      modifies this`cache
      ensures Valid()
      ensures cache == AfterRead(old(cache)) && img == ImageOf(old(cache))
    {
      if !cache.readImage {
        var source := GetPreferredSource();
        if source.Some? {
          cache := cache.(held := cache.sources[source.value].file.image);
        }
        cache := cache.(readImage := true, everRead := true);
      }
      img := cache.held;
    }

    /**
     * consider_grayscale (textureImage.cxx:775-808): drop two channels when
     * every pixel is gray.  In a later session that has not read the image the
     * remembered flag decides.
     */
    method ConsiderGrayscale()
      requires Valid()
      modifies this`properties, this`cache
      ensures Valid()
      ensures cache == AfterGrayscale(old(cache))
      ensures properties ==
                old(properties).(numChannels := old(properties).numChannels - (if GrayOf(old(cache)).drop then 2 else 0))
    {
      if !cache.readImage && cache.everRead {
        if cache.forcedGrayscale {
          properties := properties.(numChannels := properties.numChannels - 2);
        }
        return;
      }
      var img := ReadSourceImage();
      if !img.valid {
        return;
      }
      var gray := ScanGrayscale(img);
      if !gray {
        cache := cache.(forcedGrayscale := false);
        return;
      }
      properties := properties.(numChannels := properties.numChannels - 2);
      cache := cache.(forcedGrayscale := true);
    }

    /**
     * consider_unalpha (textureImage.cxx:819-852): drop the alpha channel when
     * the image has one and every alpha value is the maximum.
     */
    method ConsiderUnalpha()
      requires Valid()
      modifies this`properties, this`cache
      ensures Valid()
      ensures cache == AfterUnalpha(old(cache))
      ensures properties ==
                old(properties).(numChannels := old(properties).numChannels - (if UnalphaOf(old(cache)).drop then 1 else 0))
    {
      if !cache.readImage && cache.everRead {
        if cache.forcedUnalpha {
          properties := properties.(numChannels := properties.numChannels - 1);
        }
        return;
      }
      var img := ReadSourceImage();
      if !img.valid || !img.hasAlpha {
        return;
      }
      var allOpaque := ScanOpaque(img);
      if !allOpaque {
        cache := cache.(forcedUnalpha := false);
        return;
      }
      properties := properties.(numChannels := properties.numChannels - 1);
      cache := cache.(forcedUnalpha := true);
    }

    // -------------------------------------------------------------------
    // Reading the .txa file

    /**
     * pre_txa_file (textureImage.cxx:224-238): remember the properties, take
     * the preferred source's, and let the request forget the last .txa file
     * (TextureRequest::pre_txa_file, whose outcome is `cleared`).
     */
    method PreTxaFile(cleared: Request)
      requires Valid()
      modifies this`preTxaProperties, this`properties, this`request, this`isSurprise, this`cache
      ensures Valid()
      ensures preTxaProperties == old(properties)
      ensures cache == Filled(old(cache))
      ensures properties == (if cache.preferred.Some? then cache.sources[cache.preferred.value].file.properties
                             else old(properties))
      ensures request == cleared && isSurprise
    {
      preTxaProperties := properties;
      var source := GetPreferredSource();
      if source.Some? {
        properties := cache.sources[source.value].file.properties;
      }
      request := cleared;
      isSurprise := true;
    }

    /**
     * The size step of post_txa_file (textureImage.cxx:250-268): the preferred
     * source, once its header gives a size, sets the size and channel count;
     * then a requested size overrides the size.
     */
    method SettleSize()
      requires Valid()
      modifies this`cache, this`sizeKnown, this`xSize, this`ySize, this`properties
      ensures Valid()
      ensures cache == Filled(old(cache))
      ensures properties == Measured(old(properties), MeasuredOf(old(cache)))
      ensures var m := MeasuredOf(old(cache));
              sizeKnown == (request.gotSize || m.Some? || old(sizeKnown)) &&
              xSize == (if request.gotSize then request.xSize else if m.Some? then m.value.xSize else old(xSize)) &&
              ySize == (if request.gotSize then request.ySize else if m.Some? then m.value.ySize else old(ySize))
    {
      var source := GetPreferredSource();
      if source.Some? {
        var file := cache.sources[source.value].file;
        if file.headerOk {
          sizeKnown, xSize, ySize := true, file.xSize, file.ySize;
          properties := properties.(gotNumChannels := true, numChannels := file.numChannels);
        }
      }
      if request.gotSize {
        sizeKnown, xSize, ySize := true, request.xSize, request.ySize;
      }
    }

    /**
     * The channel count of post_txa_file (textureImage.cxx:270-291): the
     * requested one, or else, with a known count, grayscale is considered on 3
     * or 4 channels and then unalpha on the count that leaves, if it is 2 or 4.
     */
    method SettleChannels()
      requires Valid()
      modifies this`properties, this`cache
      ensures Valid()
      ensures cache == AfterProbes(old(cache), old(properties), request)
      ensures properties == ChannelSettings(old(properties), request, GrayOf(old(cache)), UnalphaOf(old(cache)))
    {
      if request.gotNumChannels {
        properties := properties.(gotNumChannels := true, numChannels := request.numChannels);
        return;
      }
      ghost var c0 := cache;
      if properties.gotNumChannels && (properties.numChannels == 3 || properties.numChannels == 4) {
        ConsiderGrayscale();
        GrayscaleKeepsUnalpha(c0);
      }
      if properties.gotNumChannels && (properties.numChannels == 2 || properties.numChannels == 4) {
        ConsiderUnalpha();
      }
    }

    /**
     * The last step of post_txa_file (textureImage.cxx:293-308): the requested
     * format and filters apply, fully_define completes the properties, and if
     * they differ from the ones before the .txa file every placement is asked
     * to re-place.
     */
    method FinishProperties(fullyDefine: Properties -> Properties)
      requires Valid()
      modifies this`properties, this`events
      ensures properties == fullyDefine(ApplyRequestedSettings(old(properties), request))
      ensures events == old(events) +
                (if properties != preTxaProperties then ForceEvents(SortedNats(placement.Keys), placement) else [])
    {
      properties := fullyDefine(ApplyRequestedSettings(properties, request));
      if properties != preTxaProperties {
        ForceReplacePlacements();
      }
    }

    /**
     * post_txa_file (textureImage.cxx:248-309).  The size and channel count
     * come from the preferred source, unless the request names them; without a
     * requested channel count the probes decide.  The requested format and
     * filters apply, fully_define completes the properties, and if they differ
     * from the ones before the .txa file every placement is asked to re-place.
     */
    method PostTxaFile(fullyDefine: Properties -> Properties)
      requires Valid()
      modifies this`sizeKnown, this`xSize, this`ySize, this`properties, this`cache, this`events
      ensures Valid()
      ensures var m := MeasuredOf(old(cache));
              sizeKnown == (request.gotSize || m.Some? || old(sizeKnown)) &&
              xSize == (if request.gotSize then request.xSize else if m.Some? then m.value.xSize else old(xSize)) &&
              ySize == (if request.gotSize then request.ySize else if m.Some? then m.value.ySize else old(ySize))
      ensures var p := Measured(old(properties), MeasuredOf(old(cache)));
              cache == AfterProbes(Filled(old(cache)), p, request) &&
              properties == fullyDefine(ApplyRequestedSettings(
                              ChannelSettings(p, request, GrayOf(old(cache)), UnalphaOf(old(cache))), request))
      ensures events == old(events) +
                (if properties != preTxaProperties then ForceEvents(SortedNats(placement.Keys), placement) else [])
    {
      FilledKeeps(cache);
      SettleSize();
      SettleChannels();
      FinishProperties(fullyDefine);
    }

    // -------------------------------------------------------------------
    // Copies of placements not on a palette

    /**
     * copy_unplaced (textureImage.cxx:502-555): the placements not on a
     * palette get their dests; then stale dests are unlinked and the new ones
     * copied (all of them with redo_all), and the generated set replaces the old.
     */
    method CopyUnplaced(redoAll: bool, destName: GroupId -> string)
      requires Valid()
      modifies this`placement, this`dests, this`events
      ensures Valid()
      ensures dests == Generated(SortedNats(old(placement).Keys), old(placement), destName)
      ensures placement == Marked(old(placement), dests, destName)
      ensures events == old(events) + DestEvents(dests, old(dests), redoAll)
    {
      var generate, marked := MarkDests(placement, destName);
      MarkedValid(placement, generate, destName, nextPlacementId);
      placement := marked;
      var evs := DiffDests(generate, dests, redoAll);
      events := events + evs;
      dests := generate;
    }
  }
}
