/** The fragment of yt-dlp's format-selector language that the downloader
    writes: '/'-separated alternatives tried left to right, each either one
    stream or a '+'-merge of a video stream with an audio stream, and each
    stream a kind optionally narrowed by bracketed filters. The datatypes give
    the structure; Render gives the exact text handed to yt-dlp. */
module Selector {

  /** Which stream yt-dlp is asked to pick. */
  datatype StreamKind = Best | BestVideo | BestAudio

  /** The container extensions the tables filter on. */
  datatype Container = Mp4 | M4a

  /** A bracketed filter: `[height<=N]` or `[ext=E]`. */
  datatype Filter = HeightAtMost(cap: nat) | ExtIs(ext: Container)

  datatype Stream = Stream(kind: StreamKind, filters: seq<Filter>)

  /** One '/'-separated alternative. */
  datatype Alternative = Single(stream: Stream) | Merge(video: Stream, audio: Stream)

  /** A selector is a non-empty preference-ordered list of alternatives. */
  type Plan = p: seq<Alternative> | |p| >= 1 witness [Single(Stream(Best, []))]

  // ---------------------------------------------------------------------
  // Decimal rendering of the height cap

  predicate IsDigit(c: char) { '0' <= c <= '9' }

  function DigitChar(d: nat): (c: char)
    requires d < 10
    ensures IsDigit(c) && c as int - '0' as int == d
  {
    ('0' as int + d) as char
  }

  /** The decimal text of n, without leading zeros. */
  function Decimal(n: nat): (s: string)
    ensures |s| >= 1
    ensures forall i :: 0 <= i < |s| ==> IsDigit(s[i])
    ensures n >= 10 ==> s[0] != '0'
    decreases n
  {
    if n < 10 then [DigitChar(n)] else Decimal(n / 10) + [DigitChar(n % 10)]
  }

  /** Reading decimal text back as a number (the partner of Decimal). */
  function DecimalValue(s: string): nat
    requires forall i :: 0 <= i < |s| ==> IsDigit(s[i])
    decreases |s|
  {
    if s == [] then 0
    else DecimalValue(s[..|s| - 1]) * 10 + DigitValue(s[|s| - 1])
  }

  function DigitValue(c: char): (d: nat)
    requires IsDigit(c)
    ensures d < 10 && DigitChar(d) == c
  {
    c as int - '0' as int
  }

  /** The height written into a selector reads back as the same height. */
  lemma {:induction false} DecimalRoundTrip(n: nat)
    ensures DecimalValue(Decimal(n)) == n
    decreases n
  {
    if n >= 10 {
      var s := Decimal(n);
      assert s[..|s| - 1] == Decimal(n / 10);
      DecimalRoundTrip(n / 10);
    }
  }

  // ---------------------------------------------------------------------
  // Rendering

  function KindText(k: StreamKind): string
  {
    match k
    case Best => "best"
    case BestVideo => "bestvideo"
    case BestAudio => "bestaudio"
  }

  function ContainerText(c: Container): string
  {
    match c
    case Mp4 => "mp4"
    case M4a => "m4a"
  }

  function FilterText(f: Filter): string
  {
    match f
    case HeightAtMost(n) => "[height<=" + Decimal(n) + "]"
    case ExtIs(e) => "[ext=" + ContainerText(e) + "]"
  }

  function FiltersText(fs: seq<Filter>): string
    decreases |fs|
  {
    if fs == [] then "" else FilterText(fs[0]) + FiltersText(fs[1..])
  }

  function StreamText(s: Stream): string
  {
    KindText(s.kind) + FiltersText(s.filters)
  }

  function AlternativeText(a: Alternative): string
  {
    match a
    case Single(s) => StreamText(s)
    case Merge(v, au) => StreamText(v) + "+" + StreamText(au)
  }

  /** The selector text: the alternatives' texts joined by '/'. */
  function Render(p: Plan): string
    decreases |p|
  {
    if |p| == 1 then AlternativeText(p[0])
    else AlternativeText(p[0]) + "/" + Render(p[1..])
  }

  /** The texts of the alternatives, in order. */
  function AlternativeTexts(p: seq<Alternative>): (r: seq<string>)
    ensures |r| == |p|
    ensures forall i :: 0 <= i < |p| ==> r[i] == AlternativeText(p[i])
    decreases |p|
  {
    if p == [] then [] else [AlternativeText(p[0])] + AlternativeTexts(p[1..])
  }

  // ---------------------------------------------------------------------
  // Splitting selector text at '/', as Python's str.split('/') does

  function SplitAlternatives(s: string): (r: seq<string>)
    ensures |r| >= 1
    decreases |s|
  {
    if s == [] then [""]
    else if s[0] == '/' then [""] + SplitAlternatives(s[1..])
    else
      var rest := SplitAlternatives(s[1..]);
      [[s[0]] + rest[0]] + rest[1..]
  }

  /** Text without a '/' is a single alternative. */
  lemma {:induction false} SplitNoSlash(a: string)
    requires '/' !in a
    ensures SplitAlternatives(a) == [a]
    decreases |a|
  {
    if a != [] {
      assert a[0] in a;
      assert forall c :: c in a[1..] ==> c in a;
      SplitNoSlash(a[1..]);
      assert [a[0]] + a[1..] == a;
    }
  }

  /** Splitting at the first '/' peels off the text before it. */
  lemma {:induction false} SplitAtFirstSlash(a: string, b: string)
    requires '/' !in a
    ensures SplitAlternatives(a + "/" + b) == [a] + SplitAlternatives(b)
    decreases |a|
  {
    if a == [] {
      assert a + "/" + b == "/" + b;
      assert ("/" + b)[1..] == b;
    } else {
      assert a[0] in a;
      assert forall c :: c in a[1..] ==> c in a;
      var s := a + "/" + b;
      assert s[0] == a[0];
      assert s[1..] == a[1..] + "/" + b;
      SplitAtFirstSlash(a[1..], b);
      assert [a[0]] + a[1..] == a;
    }
  }

  // ---------------------------------------------------------------------
  // Character-level facts about rendered text

  lemma DecimalHasNo(n: nat, c: char)
    requires !IsDigit(c)
    ensures c !in Decimal(n)
  {
    var s := Decimal(n);
    assert forall i :: 0 <= i < |s| ==> s[i] != c;
  }

  lemma FilterHasNoSeparator(f: Filter)
    ensures '/' !in FilterText(f) && '+' !in FilterText(f)
  {
    match f
    case HeightAtMost(n) => DecimalHasNo(n, '/'); DecimalHasNo(n, '+');
    case ExtIs(e) =>
  }

  lemma {:induction false} FiltersHaveNoSeparator(fs: seq<Filter>)
    ensures '/' !in FiltersText(fs) && '+' !in FiltersText(fs)
    decreases |fs|
  {
    if fs != [] {
      FilterHasNoSeparator(fs[0]);
      FiltersHaveNoSeparator(fs[1..]);
    }
  }

  lemma StreamHasNoSeparator(s: Stream)
    ensures '/' !in StreamText(s) && '+' !in StreamText(s)
  {
    FiltersHaveNoSeparator(s.filters);
  }

  /** No alternative's text contains the alternative separator. */
  lemma AlternativeHasNoSlash(a: Alternative)
    ensures '/' !in AlternativeText(a)
  {
    match a
    case Single(s) => StreamHasNoSeparator(s);
    case Merge(v, au) => StreamHasNoSeparator(v); StreamHasNoSeparator(au);
  }

  /** Only a merge alternative writes the merge operator '+'. */
  lemma AlternativeHasPlusIffMerge(a: Alternative)
    ensures ('+' in AlternativeText(a)) <==> a.Merge?
  {
    match a
    case Single(s) => StreamHasNoSeparator(s);
    case Merge(v, au) =>
      StreamHasNoSeparator(v);
      assert AlternativeText(a)[|StreamText(v)|] == '+';
  }

  // ---------------------------------------------------------------------
  // Properties of whole plans

  /** Whether the plan asks for separate streams merged locally. */
  predicate UsesMerge(p: seq<Alternative>)
  {
    exists i :: 0 <= i < |p| && p[i].Merge?
  }

  /** The unconstrained single stream `best`. */
  function Unconstrained(): (a: Alternative)
    ensures AlternativeText(a) == "best"
  {
    Single(Stream(Best, []))
  }

  function FilterCaps(fs: seq<Filter>): set<nat>
    decreases |fs|
  {
    if fs == [] then {}
    else (if fs[0].HeightAtMost? then {fs[0].cap} else {}) + FilterCaps(fs[1..])
  }

  function AlternativeCaps(a: Alternative): set<nat>
  {
    match a
    case Single(s) => FilterCaps(s.filters)
    case Merge(v, au) => FilterCaps(v.filters) + FilterCaps(au.filters)
  }

  /** Every height cap mentioned anywhere in the plan. */
  function HeightCaps(p: seq<Alternative>): set<nat>
    decreases |p|
  {
    if p == [] then {} else AlternativeCaps(p[0]) + HeightCaps(p[1..])
  }

  /** Splitting rendered text at '/' gives back exactly the alternatives'
      texts, in order, so a selector's '/'-separated parts are its
      alternatives (and its last part is its last alternative). */
  lemma {:induction false} SplitRender(p: Plan)
    ensures SplitAlternatives(Render(p)) == AlternativeTexts(p)
    decreases |p|
  {
    var first := AlternativeText(p[0]);
    AlternativeHasNoSlash(p[0]);
    if |p| == 1 {
      assert Render(p) == first;
      SplitNoSlash(first);
    } else {
      var rest: Plan := p[1..];
      assert Render(p) == first + "/" + Render(rest);
      SplitAtFirstSlash(first, Render(rest));
      SplitRender(rest);
    }
  }

  /** The rendered text contains '+' exactly when the plan has a merge. */
  lemma {:induction false} RenderHasPlusIffMerge(p: Plan)
    ensures ('+' in Render(p)) <==> UsesMerge(p)
    decreases |p|
  {
    AlternativeHasPlusIffMerge(p[0]);
    if |p| > 1 {
      RenderHasPlusIffMerge(p[1..]);
      assert UsesMerge(p) <==> p[0].Merge? || UsesMerge(p[1..]) by {
        if UsesMerge(p[1..]) {
          var i :| 0 <= i < |p[1..]| && p[1..][i].Merge?;
          assert p[i + 1].Merge?;
        }
        if UsesMerge(p) && !p[0].Merge? {
          var i :| 0 <= i < |p| && p[i].Merge?;
          assert p[1..][i - 1].Merge?;
        }
      }
    } else {
      assert UsesMerge(p) <==> p[0].Merge?;
    }
  }
}
