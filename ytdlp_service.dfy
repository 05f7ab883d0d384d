/** The format-selector resolver of `download_video`: the choice between the
    merge table (ffmpeg present) and the single-file table (ffmpeg absent),
    the lookup of the resolution token with its per-table default, and the
    output-path template handed to yt-dlp. */
module YtdlpService {
  import opened Selector
  import opened FormatTables

  datatype Option<T> = None | Some(value: T)

  /** Recognising a resolution token; every other string is unknown. */
  function ParseResolution(s: string): (o: Option<Resolution>)
    ensures o.Some? ==> Token(o.value) == s
  {
    if s == "1080p" then Some(R1080)
    else if s == "720p" then Some(R720)
    else if s == "360p" then Some(R360)
    else if s == "240p" then Some(R240)
    else if s == "144p" then Some(R144)
    else None
  }

  /** Parsing a resolution's token gives that resolution back. */
  lemma ParseToken(r: Resolution)
    ensures ParseResolution(Token(r)) == Some(r)
  {
    match r
    case R1080 =>
    case R720 =>
    case R360 =>
    case R240 =>
    case R144 =>
  }

  /** A string is recognised exactly when it is one of the table keys. */
  lemma ParseKnown(s: string)
    ensures ParseResolution(s).Some? <==> s in KnownTokens()
  {
  }

  /** Default selector for unknown tokens when ffmpeg is present. */
  const MergeDefault: string := "best"

  /** Default selector for unknown tokens when ffmpeg is absent. */
  const SingleFileDefault: string := "best[ext=mp4]/best"

  /** Python's dict.get(key, default). */
  function Get(m: map<string, string>, key: string, default: string): (r: string)
    ensures key in m ==> r == m[key]
    ensures key !in m ==> r == default
  {
    if key in m then m[key] else default
  }

  // ---------------------------------------------------------------------
  // The intended selectors, built from their structure

  /** A single mp4 stream capped at height h. */
  function CappedMp4(h: nat): Stream
  {
    Stream(Best, [HeightAtMost(h), ExtIs(Mp4)])
  }

  /** The merge alternative: an mp4 video stream capped at h plus m4a audio. */
  function MergeAlternative(h: nat): Alternative
  {
    Merge(Stream(BestVideo, [HeightAtMost(h), ExtIs(Mp4)]), Stream(BestAudio, [ExtIs(M4a)]))
  }

  /** Without ffmpeg: a capped single mp4 file, else anything. */
  function SingleFilePlan(h: nat): Plan
  {
    [Single(CappedMp4(h)), Unconstrained()]
  }

  /** With ffmpeg: the merge, then the single-file plan as fallback. */
  function MergePlan(h: nat): (p: Plan)
    ensures p == [MergeAlternative(h)] + SingleFilePlan(h)
  {
    [MergeAlternative(h), Single(CappedMp4(h)), Unconstrained()]
  }

  function MergeDefaultPlan(): Plan
  {
    [Unconstrained()]
  }

  function SingleFileDefaultPlan(): Plan
  {
    [Single(Stream(Best, [ExtIs(Mp4)])), Unconstrained()]
  }

  /** The structured selector the resolver is meant to produce. */
  function IntendedPlan(resolution: string, hasFfmpeg: bool): Plan
  {
    match ParseResolution(resolution)
    case Some(r) => if hasFfmpeg then MergePlan(HeightOf(r)) else SingleFilePlan(HeightOf(r))
    case None => if hasFfmpeg then MergeDefaultPlan() else SingleFileDefaultPlan()
  }

  // ---------------------------------------------------------------------
  // Texts of the intended selectors

  lemma CappedFiltersText(h: nat)
    ensures FiltersText([HeightAtMost(h), ExtIs(Mp4)]) == "[height<=" + Decimal(h) + "][ext=mp4]"
  {
    var fs := [HeightAtMost(h), ExtIs(Mp4)];
    assert fs[1..] == [ExtIs(Mp4)];
    assert fs[1..][1..] == [];
    assert FiltersText(fs[1..]) == "[ext=mp4]" + "";
    assert "[ext=mp4]" + "" == "[ext=mp4]";
    assert FiltersText(fs) == FilterText(fs[0]) + FiltersText(fs[1..]);
    assert FiltersText(fs) == ("[height<=" + Decimal(h) + "]") + "[ext=mp4]";
    CappedFiltersShape(Decimal(h));
  }

  /** The merge alternative asks for mp4 video capped at h plus m4a audio. */
  lemma MergeAlternativeText(h: nat)
    ensures AlternativeText(MergeAlternative(h)) == "bestvideo[height<=" + Decimal(h) + "][ext=mp4]+bestaudio[ext=m4a]"
  {
    CappedFiltersText(h);
    assert [ExtIs(M4a)][1..] == [];
    assert AlternativeText(MergeAlternative(h))
      == ("bestvideo" + ("[height<=" + Decimal(h) + "][ext=mp4]")) + "+" + ("bestaudio" + "[ext=m4a]");
    MergeAlternativeShape(Decimal(h));
  }

  /** The capped single alternative asks for one mp4 file capped at h. */
  lemma CappedSingleText(h: nat)
    ensures AlternativeText(Single(CappedMp4(h))) == "best[height<=" + Decimal(h) + "][ext=mp4]"
  {
    CappedFiltersText(h);
    assert AlternativeText(Single(CappedMp4(h))) == "best" + ("[height<=" + Decimal(h) + "][ext=mp4]");
    CappedSingleShape(Decimal(h));
  }

  // Regrouping string literals around the decimal text d. These stay in
  // lemmas of their own, where nothing but strings is in scope.

  lemma CappedFiltersShape(d: string)
    ensures ("[height<=" + d + "]") + "[ext=mp4]" == "[height<=" + d + "][ext=mp4]"
  {
    assert "]" + "[ext=mp4]" == "][ext=mp4]";
  }

  lemma MergeAlternativeShape(d: string)
    ensures ("bestvideo" + ("[height<=" + d + "][ext=mp4]")) + "+" + ("bestaudio" + "[ext=m4a]")
         == "bestvideo[height<=" + d + "][ext=mp4]+bestaudio[ext=m4a]"
  {
    assert "bestvideo" + "[height<=" == "bestvideo[height<=";
    assert "][ext=mp4]" + "+" + ("bestaudio" + "[ext=m4a]") == "][ext=mp4]+bestaudio[ext=m4a]";
  }

  lemma CappedSingleShape(d: string)
    ensures "best" + ("[height<=" + d + "][ext=mp4]") == "best[height<=" + d + "][ext=mp4]"
  {
    assert "best" + "[height<=" == "best[height<=";
  }

  lemma SingleFileTextShape(d: string)
    ensures "best[height<=" + d + "][ext=mp4]" + "/" + "best" == "best[height<=" + d + "][ext=mp4]/best"
  {
    assert "][ext=mp4]" + "/" + "best" == "][ext=mp4]/best";
  }

  /** With ffmpeg the selector text for cap h is the merge alternative, then
      the single-file selector text. */
  lemma MergePlanText(h: nat)
    ensures Render(MergePlan(h))
         == "bestvideo[height<=" + Decimal(h) + "][ext=mp4]+bestaudio[ext=m4a]" + "/" + Render(SingleFilePlan(h))
  {
    var p := MergePlan(h);
    assert p[1..] == SingleFilePlan(h);
    assert Render(p) == AlternativeText(p[0]) + "/" + Render(p[1..]);
    MergeAlternativeText(h);
  }

  /** Without ffmpeg the selector text for cap h is the capped single mp4,
      then unconstrained best. */
  lemma SingleFilePlanText(h: nat)
    ensures Render(SingleFilePlan(h)) == "best[height<=" + Decimal(h) + "][ext=mp4]" + "/" + "best"
  {
    var p := SingleFilePlan(h);
    assert p[1..] == [Unconstrained()];
    assert Render(p) == AlternativeText(p[0]) + "/" + Render(p[1..]);
    CappedSingleText(h);
  }

  /** Splitting the merge selector text gives its three alternatives. */
  lemma MergePlanAlternatives(h: nat)
    ensures SplitAlternatives(Render(MergePlan(h)))
         == ["bestvideo[height<=" + Decimal(h) + "][ext=mp4]+bestaudio[ext=m4a]", "best[height<=" + Decimal(h) + "][ext=mp4]", "best"]
  {
    var p := MergePlan(h);
    SplitRender(p);
    assert AlternativeTexts(p) == [AlternativeText(p[0]), AlternativeText(p[1]), AlternativeText(p[2])];
    MergeAlternativeText(h);
    CappedSingleText(h);
  }

  /** Splitting the single-file selector text gives its two alternatives. */
  lemma SingleFilePlanAlternatives(h: nat)
    ensures SplitAlternatives(Render(SingleFilePlan(h))) == ["best[height<=" + Decimal(h) + "][ext=mp4]", "best"]
  {
    var p := SingleFilePlan(h);
    SplitRender(p);
    assert AlternativeTexts(p) == [AlternativeText(p[0]), AlternativeText(p[1])];
    CappedSingleText(h);
  }

  /** The written tables hold exactly the rendered plans, key for key. */
  lemma TablesRenderPlans(r: Resolution)
    ensures Token(r) in MergeFormats && MergeFormats[Token(r)] == Render(MergePlan(HeightOf(r)))
    ensures Token(r) in SingleFileFormats && SingleFileFormats[Token(r)] == Render(SingleFilePlan(HeightOf(r)))
  {
    TableEntries(r);
    MergePlanText(HeightOf(r));
    SingleFilePlanText(HeightOf(r));
    SingleFileTextShape(Decimal(HeightOf(r)));
  }

  /** The two defaults are the rendered default plans. */
  lemma DefaultsRenderPlans()
    ensures Render(MergeDefaultPlan()) == MergeDefault
    ensures Render(SingleFileDefaultPlan()) == SingleFileDefault
  {
    var p := SingleFileDefaultPlan();
    assert [ExtIs(Mp4)][1..] == [];
    assert AlternativeText(p[0]) == "best[ext=mp4]";
    assert p[1..] == [Unconstrained()];
  }

  // ---------------------------------------------------------------------
  // The resolver

  /** Both lookups, with their defaults, give the text of the intended plan
      for every string: the tables and the defaults agree with the
      structured selectors. */
  lemma LookupsRenderPlans(resolution: string)
    ensures Get(MergeFormats, resolution, MergeDefault) == Render(IntendedPlan(resolution, true))
    ensures Get(SingleFileFormats, resolution, SingleFileDefault) == Render(IntendedPlan(resolution, false))
  {
    DefaultsRenderPlans();
    TablesHaveSameKeys();
    ParseKnown(resolution);
    match ParseResolution(resolution)
    case Some(r) => TablesRenderPlans(r);
    case None =>
  }

  /** The selector `download_video` hands to yt-dlp for a resolution token,
      given whether ffmpeg was found on the PATH
      (backend/downloader/ytdlp_service.py:57-63): the table is chosen by
      ffmpeg's presence, then the token is looked up with that table's
      default. The result is the text of the intended plan for that token
      and that host. */
  function ResolveFormat(resolution: string, hasFfmpeg: bool): (r: string)
    ensures r == Render(IntendedPlan(resolution, hasFfmpeg))
  {
    LookupsRenderPlans(resolution);
    if hasFfmpeg then Get(MergeFormats, resolution, MergeDefault)
    else Get(SingleFileFormats, resolution, SingleFileDefault)
  }

  // ---------------------------------------------------------------------
  // Properties of the resolver

  /** With ffmpeg and a known token, the selector is the capped mp4 video
      merged with m4a audio, then the capped single mp4, then `best`. */
  lemma ResolveWithFfmpeg(r: Resolution)
    ensures var n := Decimal(HeightOf(r));
      ResolveFormat(Token(r), true)
        == "bestvideo[height<=" + n + "][ext=mp4]+bestaudio[ext=m4a]" + "/" + ("best[height<=" + n + "][ext=mp4]" + "/" + "best")
  {
    ParseToken(r);
    MergePlanText(HeightOf(r));
    SingleFilePlanText(HeightOf(r));
  }

  /** Without ffmpeg and a known token, the selector is the capped single mp4,
      then `best`. */
  lemma ResolveWithoutFfmpeg(r: Resolution)
    ensures ResolveFormat(Token(r), false) == "best[height<=" + Decimal(HeightOf(r)) + "][ext=mp4]" + "/" + "best"
  {
    ParseToken(r);
    SingleFilePlanText(HeightOf(r));
  }

  /** The merge selector only prepends the merge alternative to the
      single-file selector of the same token. */
  lemma MergeExtendsSingleFile(r: Resolution)
    ensures ResolveFormat(Token(r), true)
         == "bestvideo[height<=" + Decimal(HeightOf(r)) + "][ext=mp4]+bestaudio[ext=m4a]" + "/" + ResolveFormat(Token(r), false)
  {
    ParseToken(r);
    MergePlanText(HeightOf(r));
  }

  /** An unknown token falls back to `best` with ffmpeg and to
      `best[ext=mp4]/best` without it. */
  lemma ResolveUnknown(s: string)
    requires s !in KnownTokens()
    ensures ResolveFormat(s, true) == "best"
    ensures ResolveFormat(s, false) == "best[ext=mp4]/best"
  {
    ParseKnown(s);
    DefaultsRenderPlans();
  }

  /** A merge is requested exactly when ffmpeg is present and the token is
      known; in particular, without ffmpeg no selector contains '+'. */
  lemma MergeOnlyWithFfmpeg(s: string, hasFfmpeg: bool)
    ensures ('+' in ResolveFormat(s, hasFfmpeg)) <==> hasFfmpeg && s in KnownTokens()
    ensures UsesMerge(IntendedPlan(s, hasFfmpeg)) <==> hasFfmpeg && s in KnownTokens()
  {
    var p := IntendedPlan(s, hasFfmpeg);
    ParseKnown(s);
    RenderHasPlusIffMerge(p);
    if UsesMerge(p) {
      var i :| 0 <= i < |p| && p[i].Merge?;
      assert hasFfmpeg && s in KnownTokens();
    }
    if hasFfmpeg && s in KnownTokens() {
      assert p[0].Merge?;
    }
  }

  lemma NoMergeWithoutFfmpeg(s: string)
    ensures '+' !in ResolveFormat(s, false)
  {
    MergeOnlyWithFfmpeg(s, false);
  }

  /** For every input, the last '/'-separated alternative of the selector is
      the unconstrained `best`. */
  lemma LastAlternativeIsBest(s: string, hasFfmpeg: bool)
    ensures var parts := SplitAlternatives(ResolveFormat(s, hasFfmpeg)); parts[|parts| - 1] == "best"
  {
    var p := IntendedPlan(s, hasFfmpeg);
    SplitRender(p);
    var parts := AlternativeTexts(p);
    assert parts[|p| - 1] == AlternativeText(p[|p| - 1]);
    assert p[|p| - 1] == Unconstrained();
  }

  /** With ffmpeg and a known token the selector has exactly three
      alternatives, in preference order: merge, capped single file, best. */
  lemma AlternativesWithFfmpeg(r: Resolution)
    ensures var n := Decimal(HeightOf(r));
      SplitAlternatives(ResolveFormat(Token(r), true))
        == ["bestvideo[height<=" + n + "][ext=mp4]+bestaudio[ext=m4a]", "best[height<=" + n + "][ext=mp4]", "best"]
  {
    ParseToken(r);
    MergePlanAlternatives(HeightOf(r));
  }

  /** Without ffmpeg and a known token the selector has exactly two
      alternatives: the capped single file, then best. */
  lemma AlternativesWithoutFfmpeg(r: Resolution)
    ensures SplitAlternatives(ResolveFormat(Token(r), false))
         == ["best[height<=" + Decimal(HeightOf(r)) + "][ext=mp4]", "best"]
  {
    ParseToken(r);
    SingleFilePlanAlternatives(HeightOf(r));
  }

  /** The only height cap a selector mentions is that of its token, and a
      default selector mentions none. */
  lemma HeightCapsOfSelector(s: string, hasFfmpeg: bool)
    ensures HeightCaps(IntendedPlan(s, hasFfmpeg))
         == match ParseResolution(s) case Some(r) => {HeightOf(r)} case None => {}
  {
    assert [ExtIs(Mp4)][1..] == [] && [ExtIs(M4a)][1..] == [];
    assert [Unconstrained()][1..] == [];
    match ParseResolution(s)
    case Some(r) =>
      var h := HeightOf(r);
      var fs := [HeightAtMost(h), ExtIs(Mp4)];
      assert fs[1..] == [ExtIs(Mp4)];
      assert FilterCaps(fs) == {h};
      assert HeightCaps(SingleFilePlan(h)) == {h} by {
        assert SingleFilePlan(h)[1..] == [Unconstrained()];
      }
      if hasFfmpeg {
        assert MergePlan(h)[1..] == SingleFilePlan(h);
      }
    case None =>
      assert SingleFileDefaultPlan()[1..] == [Unconstrained()];
  }

  // ---------------------------------------------------------------------
  // The output template (lines 67-72)

  /** `str(uuid4())[:8]`: the first eight characters of the uuid text, or
      all of it when it is shorter, as Python slicing does. */
  function UniqueId(uuidText: string): (id: string)
    ensures |uuidText| >= 8 ==> |id| == 8
    ensures |uuidText| < 8 ==> |id| == |uuidText|
    ensures id <= uuidText
  {
    if |uuidText| <= 8 then uuidText else uuidText[..8]
  }

  /** `f'%(title)s_{unique_id}.%(ext)s'`: yt-dlp fills in the title and the
      extension; the id keeps concurrent downloads apart. */
  function FileNameTemplate(id: string): string
  {
    "%(title)s_" + id + ".%(ext)s"
  }

  /** `os.path.join(dir, name)` on POSIX: an absolute name replaces the
      directory; an empty directory or one ending in '/' is extended
      directly; otherwise a '/' is put between. */
  function JoinPath(dir: string, name: string): (p: string)
    ensures name != [] && name[0] == '/' ==> p == name
    ensures (name == [] || name[0] != '/') ==>
      && |p| - |name| - |dir| == (if dir == [] || dir[|dir| - 1] == '/' then 0 else 1)
      && p[..|dir|] == dir
      && p[|p| - |name|..] == name
      && (|p| > |dir| + |name| ==> p[|dir|] == '/')
  {
    if name != [] && name[0] == '/' then name
    else if dir == [] || dir[|dir| - 1] == '/' then dir + name
    else dir + "/" + name
  }

  /** The `outtmpl` option of the download: it lies in the temp directory,
      separated from it by at most one '/', and ends in the file-name
      template built from the id. */
  function OutputTemplate(tempDir: string, uuidText: string): (t: string)
    ensures var name := FileNameTemplate(UniqueId(uuidText));
      && |t| >= |tempDir| + |name|
      && t == tempDir + t[|tempDir|..|t| - |name|] + name
      && t[|tempDir|..|t| - |name|] == (if tempDir == [] || tempDir[|tempDir| - 1] == '/' then "" else "/")
  {
    var name := FileNameTemplate(UniqueId(uuidText));
    assert name[0] == '%';
    JoinPath(tempDir, name)
  }

  /** Within one temp directory, two downloads get the same template exactly
      when their ids (the uuid prefixes) agree. */
  lemma OutputTemplateDistinguishesIds(tempDir: string, u1: string, u2: string)
    ensures OutputTemplate(tempDir, u1) == OutputTemplate(tempDir, u2) <==> UniqueId(u1) == UniqueId(u2)
  {
    var id1, id2 := UniqueId(u1), UniqueId(u2);
    var n1, n2 := FileNameTemplate(id1), FileNameTemplate(id2);
    var t1, t2 := OutputTemplate(tempDir, u1), OutputTemplate(tempDir, u2);
    assert n1[0] == '%' && n2[0] == '%';
    if t1 == t2 {
      assert |n1| == |n2|;
      assert n1 == t1[|t1| - |n1|..] == n2;
      assert id1 == n1[10..|n1| - 8];
      assert id2 == n2[10..|n2| - 8];
    }
  }
}
