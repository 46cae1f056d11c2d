/** Building an analysis from a configuration file: the required keys, the
    defaults of the optional ones, the label derived from the first file
    name, and the fatal errors, in the order the constructor meets them. */
module Config {
  import opened Wrappers
  import opened Strings
  import opened Events
  import opened Analyzer

  /** The keys the analysis reads. A key the file does not hold is None; a
      list key that is present but yields no element is Some([]). */
  datatype ConfigFile = ConfigFile(
    filename: Option<seq<string>>,
    dataLabel: Option<string>,
    thr: Option<seq<real>>,
    ampMin: Option<real>,
    ampMax: Option<real>,
    riseMin: Option<real>,
    riseMax: Option<real>,
    timeOffset: Option<real>)

  /** The fatal errors of the configuration constructor, each of which ends
      the program with EXIT_FAILURE. */
  datatype ConfigError =
    | MissingFilename   // "<Filename> is a required parameter"
    | EmptyFilename     // "error while reading <Filename> parameter"
    | MissingThr        // "<thr> is a required parameter"
    | EmptyChain        // "empty tree": no file was added to the chain

  /** What ParseConfigFile stores. */
  datatype Settings = Settings(
    dataLabel: string,
    thr: seq<real>,
    nthr: int,
    ampMin: real, ampMax: real,
    riseMin: real, riseMax: real,
    offset: real)

  const DefaultAmpMin: real := 0.0
  const DefaultAmpMax: real := 8000.0
  const DefaultRiseMin: real := 0.0
  const DefaultRiseMax: real := 10.0
  const DefaultOffset: real := 10.0

  /** The label of an analysis whose configuration names none: the first
      file name with every ".root" removed, then every "*", then every
      remaining "." turned into "p". */
  function DeriveLabel(f: string): (l: string)
    ensures '.' !in l && '*' !in l
    ensures forall c :: c in l ==> c in f || c == 'p'
  {
    var noRoot := ReplaceAll(f, ".root", "");
    var noStar := ReplaceAll(noRoot, "*", "");
    DeleteCharMembers(noRoot, '*');
    ReplaceCharPointwise(noStar, '.', 'p');
    var l := ReplaceAll(noStar, ".", "p");
    assert forall c :: c in l ==> c in noStar || c == 'p';
    l
  }

  /** A label is its own derived label exactly when it holds no '.' and no
      '*'; in particular deriving a label twice changes nothing. */
  lemma DeriveLabelFixedPoints(f: string)
    ensures DeriveLabel(f) == f <==> '.' !in f && '*' !in f
    ensures DeriveLabel(DeriveLabel(f)) == DeriveLabel(f)
  {
    if '.' !in f && '*' !in f {
      assert ReplaceAll(f, ".root", "") == f;
      assert ReplaceAll(f, "*", "") == f;
      assert ReplaceAll(f, ".", "p") == f;
    }
    var l := DeriveLabel(f);
    assert ReplaceAll(l, ".root", "") == l;
    assert ReplaceAll(l, "*", "") == l;
    assert ReplaceAll(l, ".", "p") == l;
  }

  /** What the label derivation makes of one character once ".root" is
      gone: '*' is dropped, '.' becomes 'p', and every other character is
      kept. */
  function LabelChar(c: char): string {
    if c == '*' then "" else if c == '.' then "p" else [c]
  }

  /** After ".root" is removed, the two remaining edits act character by
      character: "a.b" becomes "apb" and "run_*" becomes "run_". */
  lemma DeriveLabelByChar(f: string)
    ensures DeriveLabel(f) == MapChars(ReplaceAll(f, ".root", ""), LabelChar)
  {
    var noRoot := ReplaceAll(f, ".root", "");
    var e1, e2 := CharEdit('*', ""), CharEdit('.', "p");
    ReplaceCharIsEdit(noRoot, '*', "");
    ReplaceCharIsEdit(MapChars(noRoot, e1), '.', "p");
    MapCharsCompose(noRoot, e1, e2);
    forall x ensures Then(e1, e2)(x) == LabelChar(x) {
      if x != '*' {
        assert MapChars([x], e2) == e2(x) + MapChars([], e2);
      }
    }
    MapCharsExt(noRoot, Then(e1, e2), LabelChar);
  }

  /** The extension is stripped: a file name made of a plain stem (no '.'
      and no '*') and ".root" derives the stem itself. */
  lemma DeriveLabelStripsRoot(stem: string)
    requires '.' !in stem && '*' !in stem
    ensures DeriveLabel(stem + ".root") == stem
  {
    StripSuffix(stem, ".root");
    assert ReplaceAll(stem, "*", "") == stem;
    assert ReplaceAll(stem, ".", "p") == stem;
  }

  /** Deleting every `pat` from a stem free of its first character,
      followed by `pat` itself, leaves the stem. */
  lemma StripSuffix(stem: string, pat: string)
    requires pat != [] && pat[0] !in stem
    ensures ReplaceAll(stem + pat, pat, []) == stem
  {
    ReplaceSkip(stem, pat, pat, []);
    ReplaceHit([], pat, []);
    assert pat + [] == pat;
  }

  /** ParseConfigFile: the label (given, or derived from the first file
      name), the thresholds (required), fNthr as their count, and the four
      range keys and the time offset with their defaults 0, 8000, 0, 10 and
      10. The first file name is only read when no label is given, and the
      constructor has already checked that there is one. */
  function ParseConfigFile(cfg: ConfigFile): (r: Result<Settings, ConfigError>)
    requires cfg.dataLabel.None? ==> cfg.filename.Some? && |cfg.filename.value| > 0
    ensures r.Failure? <==> cfg.thr.None?
    ensures r.Failure? ==> r.error == MissingThr
    ensures r.Success? ==>
      && r.value.thr == cfg.thr.value
      && r.value.nthr == |cfg.thr.value|
      && r.value.dataLabel == (if cfg.dataLabel.Some? then cfg.dataLabel.value else DeriveLabel(cfg.filename.value[0]))
      && r.value.ampMin == (if cfg.ampMin.Some? then cfg.ampMin.value else 0.0)
      && r.value.ampMax == (if cfg.ampMax.Some? then cfg.ampMax.value else 8000.0)
      && r.value.riseMin == (if cfg.riseMin.Some? then cfg.riseMin.value else 0.0)
      && r.value.riseMax == (if cfg.riseMax.Some? then cfg.riseMax.value else 10.0)
      && r.value.offset == (if cfg.timeOffset.Some? then cfg.timeOffset.value else 10.0)
  {
    var name := if cfg.dataLabel.Some? then cfg.dataLabel.value else DeriveLabel(cfg.filename.value[0]);
    match cfg.thr
    case None => Failure(MissingThr)
    case Some(thr) =>
      Success(Settings(name, thr, |thr|,
        cfg.ampMin.GetOr(DefaultAmpMin), cfg.ampMax.GetOr(DefaultAmpMax),
        cfg.riseMin.GetOr(DefaultRiseMin), cfg.riseMax.GetOr(DefaultRiseMax),
        cfg.timeOffset.GetOr(DefaultOffset)))
  }

  /** The number of files TChain::Add reports for the file names, in order;
      `added` stands for what one call adds (a pattern may match several
      files or none). */
  function FilesAdded(files: seq<string>, added: string -> nat): (n: nat)
    ensures n == 0 <==> forall i :: 0 <= i < |files| ==> added(files[i]) == 0
  {
    if files == [] then 0 else added(files[0]) + FilesAdded(files[1..], added)
  }

  /** The configuration constructor. `added` is what adding each file name
      to the chain reports and `rows` the entries of the resulting chain;
      both come from `TChain` reading the files and are parameters here. The
      checks run in source order: the Filename key must be present and
      non-empty, the thr key must be present, and at least one file must
      have been added. An empty threshold list passes every check. */
  function Open(cfg: ConfigFile, added: string -> nat, rows: seq<Row>): (r: Result<Dataset, ConfigError>)
    ensures r == Failure(MissingFilename) <==> cfg.filename.None?
    ensures r == Failure(EmptyFilename) <==> cfg.filename == Some([])
    ensures r == Failure(MissingThr) <==>
      cfg.filename.Some? && cfg.filename.value != [] && cfg.thr.None?
    ensures r == Failure(EmptyChain) <==>
      cfg.filename.Some? && cfg.filename.value != [] && cfg.thr.Some? && FilesAdded(cfg.filename.value, added) == 0
    ensures r.Success? ==>
      var s := ParseConfigFile(cfg).value;
      && Consistent(r.value)
      && r.value.rows == rows
      && r.value.thr == s.thr && r.value.nthr == s.nthr && r.value.dataLabel == s.dataLabel
      && r.value.ampMin == s.ampMin && r.value.ampMax == s.ampMax
      && r.value.riseMin == s.riseMin && r.value.riseMax == s.riseMax
      && r.value.offset == s.offset
  {
    match cfg.filename
    case None => Failure(MissingFilename)
    case Some(files) =>
      if files == [] then Failure(EmptyFilename)
      else
        match ParseConfigFile(cfg)
        case Failure(e) => Failure(e)
        case Success(s) =>
          if FilesAdded(files, added) == 0 then Failure(EmptyChain)
          else Success(Make(rows, s.nthr, s.thr, s.dataLabel, s.ampMin, s.ampMax, s.riseMin, s.riseMax, s.offset))
  }
}
