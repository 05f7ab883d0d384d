/** The resolution tokens the UI sends and the two constant tables of
    backend/downloader/ytdlp_service.py that map them to yt-dlp format
    selectors, written exactly as the service writes them. */
module FormatTables {
  import opened Selector

  /** The five resolutions the UI offers. */
  datatype Resolution = R1080 | R720 | R360 | R240 | R144

  /** The vertical pixel cap a resolution stands for. */
  function HeightOf(r: Resolution): (h: nat)
    ensures 144 <= h <= 1080
  {
    match r
    case R1080 => 1080
    case R720 => 720
    case R360 => 360
    case R240 => 240
    case R144 => 144
  }

  /** The token the UI sends for a resolution. */
  function Token(r: Resolution): string
  {
    match r
    case R1080 => "1080p"
    case R720 => "720p"
    case R360 => "360p"
    case R240 => "240p"
    case R144 => "144p"
  }

  function KnownTokens(): set<string>
  {
    {"1080p", "720p", "360p", "240p", "144p"}
  }

  /** Each token is its height cap written in decimal followed by 'p', and
      the tokens are exactly the known ones. */
  lemma TokenIsHeight(r: Resolution)
    ensures Token(r) == Decimal(HeightOf(r)) + "p"
    ensures Token(r) in KnownTokens()
  {
    match r
    case R1080 => assert Decimal(1080) == "1080";
    case R720 => assert Decimal(720) == "720";
    case R360 => assert Decimal(360) == "360";
    case R240 => assert Decimal(240) == "240";
    case R144 => assert Decimal(144) == "144";
  }

  /** Selectors used when ffmpeg can merge separate streams. */
  const MergeFormats: map<string, string> := map[
    "1080p" := "bestvideo[height<=1080][ext=mp4]+bestaudio[ext=m4a]/best[height<=1080][ext=mp4]/best",
    "720p" := "bestvideo[height<=720][ext=mp4]+bestaudio[ext=m4a]/best[height<=720][ext=mp4]/best",
    "360p" := "bestvideo[height<=360][ext=mp4]+bestaudio[ext=m4a]/best[height<=360][ext=mp4]/best",
    "240p" := "bestvideo[height<=240][ext=mp4]+bestaudio[ext=m4a]/best[height<=240][ext=mp4]/best",
    "144p" := "bestvideo[height<=144][ext=mp4]+bestaudio[ext=m4a]/best[height<=144][ext=mp4]/best"
  ]

  /** Selectors used when no merge tool is present (single files only). */
  const SingleFileFormats: map<string, string> := map[
    "1080p" := "best[height<=1080][ext=mp4]/best",
    "720p" := "best[height<=720][ext=mp4]/best",
    "360p" := "best[height<=360][ext=mp4]/best",
    "240p" := "best[height<=240][ext=mp4]/best",
    "144p" := "best[height<=144][ext=mp4]/best"
  ]

  /** Both tables are keyed by exactly the five tokens. */
  lemma TablesHaveSameKeys()
    ensures MergeFormats.Keys == SingleFileFormats.Keys == KnownTokens()
    ensures forall s :: s in MergeFormats <==> exists r :: Token(r) == s
  {
    forall s | s in KnownTokens() ensures exists r :: Token(r) == s {
      if s == "1080p" { assert Token(R1080) == s; }
      else if s == "720p" { assert Token(R720) == s; }
      else if s == "360p" { assert Token(R360) == s; }
      else if s == "240p" { assert Token(R240) == s; }
      else { assert Token(R144) == s; }
    }
    forall r: Resolution ensures Token(r) in KnownTokens() {
      TokenIsHeight(r);
    }
  }

  // Per-entry facts about the literal texts. Each is kept in a lemma of its
  // own: comparing long string literals is cheap one at a time and costly
  // when several share one proof.

  lemma SingleFileEntry1080()
    ensures "best[height<=1080][ext=mp4]/best" == "best[height<=" + "1080" + "][ext=mp4]/best"
  {}

  lemma MergePrefix1080()
    ensures "bestvideo[height<=" + "1080" + "][ext=mp4]+bestaudio[ext=m4a]" + "/"
         == "bestvideo[height<=1080][ext=mp4]+bestaudio[ext=m4a]/"
  {}

  lemma MergeEntry1080()
    ensures "bestvideo[height<=1080][ext=mp4]+bestaudio[ext=m4a]/best[height<=1080][ext=mp4]/best"
         == "bestvideo[height<=1080][ext=mp4]+bestaudio[ext=m4a]/" + "best[height<=1080][ext=mp4]/best"
  {}

  lemma SingleFileEntry720()
    ensures "best[height<=720][ext=mp4]/best" == "best[height<=" + "720" + "][ext=mp4]/best"
  {}

  lemma MergePrefix720()
    ensures "bestvideo[height<=" + "720" + "][ext=mp4]+bestaudio[ext=m4a]" + "/"
         == "bestvideo[height<=720][ext=mp4]+bestaudio[ext=m4a]/"
  {}

  lemma MergeEntry720()
    ensures "bestvideo[height<=720][ext=mp4]+bestaudio[ext=m4a]/best[height<=720][ext=mp4]/best"
         == "bestvideo[height<=720][ext=mp4]+bestaudio[ext=m4a]/" + "best[height<=720][ext=mp4]/best"
  {}

  lemma SingleFileEntry360()
    ensures "best[height<=360][ext=mp4]/best" == "best[height<=" + "360" + "][ext=mp4]/best"
  {}

  lemma MergePrefix360()
    ensures "bestvideo[height<=" + "360" + "][ext=mp4]+bestaudio[ext=m4a]" + "/"
         == "bestvideo[height<=360][ext=mp4]+bestaudio[ext=m4a]/"
  {}

  lemma MergeEntry360()
    ensures "bestvideo[height<=360][ext=mp4]+bestaudio[ext=m4a]/best[height<=360][ext=mp4]/best"
         == "bestvideo[height<=360][ext=mp4]+bestaudio[ext=m4a]/" + "best[height<=360][ext=mp4]/best"
  {}

  lemma SingleFileEntry240()
    ensures "best[height<=240][ext=mp4]/best" == "best[height<=" + "240" + "][ext=mp4]/best"
  {}

  lemma MergePrefix240()
    ensures "bestvideo[height<=" + "240" + "][ext=mp4]+bestaudio[ext=m4a]" + "/"
         == "bestvideo[height<=240][ext=mp4]+bestaudio[ext=m4a]/"
  {}

  lemma MergeEntry240()
    ensures "bestvideo[height<=240][ext=mp4]+bestaudio[ext=m4a]/best[height<=240][ext=mp4]/best"
         == "bestvideo[height<=240][ext=mp4]+bestaudio[ext=m4a]/" + "best[height<=240][ext=mp4]/best"
  {}

  lemma SingleFileEntry144()
    ensures "best[height<=144][ext=mp4]/best" == "best[height<=" + "144" + "][ext=mp4]/best"
  {}

  lemma MergePrefix144()
    ensures "bestvideo[height<=" + "144" + "][ext=mp4]+bestaudio[ext=m4a]" + "/"
         == "bestvideo[height<=144][ext=mp4]+bestaudio[ext=m4a]/"
  {}

  lemma MergeEntry144()
    ensures "bestvideo[height<=144][ext=mp4]+bestaudio[ext=m4a]/best[height<=144][ext=mp4]/best"
         == "bestvideo[height<=144][ext=mp4]+bestaudio[ext=m4a]/" + "best[height<=144][ext=mp4]/best"
  {}

  /** For every token, the single-file selector is the capped mp4 file and
      then `best`, and the merge selector only prepends the merge
      alternative to the single-file selector of the same token. */
  lemma TableEntries(r: Resolution)
    ensures Token(r) in SingleFileFormats && Token(r) in MergeFormats
    ensures SingleFileFormats[Token(r)] == "best[height<=" + Decimal(HeightOf(r)) + "][ext=mp4]/best"
    ensures MergeFormats[Token(r)]
         == "bestvideo[height<=" + Decimal(HeightOf(r)) + "][ext=mp4]+bestaudio[ext=m4a]" + "/" + SingleFileFormats[Token(r)]
  {
    match r
    case R1080 =>
      assert Decimal(1080) == "1080";
      SingleFileEntry1080();
      MergePrefix1080();
      MergeEntry1080();
    case R720 =>
      assert Decimal(720) == "720";
      SingleFileEntry720();
      MergePrefix720();
      MergeEntry720();
    case R360 =>
      assert Decimal(360) == "360";
      SingleFileEntry360();
      MergePrefix360();
      MergeEntry360();
    case R240 =>
      assert Decimal(240) == "240";
      SingleFileEntry240();
      MergePrefix240();
      MergeEntry240();
    case R144 =>
      assert Decimal(144) == "144";
      SingleFileEntry144();
      MergePrefix144();
      MergeEntry144();
  }
}
