/** The canvases DrawProfiles creates and the file names it prints them
    to: the canvas key, sanitised with four ReplaceAll edits, plus ".pdf";
    then the same text with every "pdf" turned into "png". Drawing itself
    is not modelled. */
module Plots {
  import opened Strings
  import opened Analyzer

  /** What the sanitiser makes of one character: blank and comma become
      '_', '=' is dropped and '.' becomes 'p'. */
  function SanitizeChar(c: char): string {
    if c == ' ' || c == ',' then "_"
    else if c == '=' then ""
    else if c == '.' then "p"
    else [c]
  }

  // ---------------------------------------------------------------------
  // The sanitiser and the printed file names.

  /** The four edits DrawProfiles applies to a canvas key, in order. */
  function Sanitize(key: string): string {
    ReplaceAll(ReplaceAll(ReplaceAll(ReplaceAll(key, " ", "_"), "=", ""), ",", "_"), ".", "p")
  }

  /** The four edits in a row act character by character. */
  lemma SanitizeByChar(key: string)
    ensures Sanitize(key) == MapChars(key, SanitizeChar)
  {
    var e1, e2, e3, e4 := CharEdit(' ', "_"), CharEdit('=', ""), CharEdit(',', "_"), CharEdit('.', "p");
    ReplaceCharIsEdit(key, ' ', "_");
    var s1 := MapChars(key, e1);
    ReplaceCharIsEdit(s1, '=', "");
    var s2 := MapChars(s1, e2);
    ReplaceCharIsEdit(s2, ',', "_");
    var s3 := MapChars(s2, e3);
    ReplaceCharIsEdit(s3, '.', "p");
    MapCharsCompose(key, e1, e2);
    MapCharsCompose(key, Then(e1, e2), e3);
    MapCharsCompose(key, Then(Then(e1, e2), e3), e4);
    forall x ensures Then(Then(Then(e1, e2), e3), e4)(x) == SanitizeChar(x) {
      OneCharEdits(x);
    }
    MapCharsExt(key, Then(Then(Then(e1, e2), e3), e4), SanitizeChar);
  }

  /** The four edits applied to a single character. */
  lemma OneCharEdits(x: char)
    ensures var e1, e2, e3, e4 := CharEdit(' ', "_"), CharEdit('=', ""), CharEdit(',', "_"), CharEdit('.', "p");
            Then(Then(Then(e1, e2), e3), e4)(x) == SanitizeChar(x)
  {
    var e1, e2, e3, e4 := CharEdit(' ', "_"), CharEdit('=', ""), CharEdit(',', "_"), CharEdit('.', "p");
    var a := e1(x);
    assert |a| == 1;
    assert MapChars(a, e2) == e2(a[0]);
    var b := MapChars(a, e2);
    if b == [] {
      assert MapChars(b, e3) == [];
      assert Then(Then(e1, e2), e3)(x) == [];
    } else {
      assert |b| == 1;
      assert MapChars(b, e3) == e3(b[0]);
      var c := MapChars(b, e3);
      assert |c| == 1;
      assert MapChars(c, e4) == e4(c[0]);
    }
  }

  /** A sanitised key holds no blank, '=', ',' or '.'. */
  lemma SanitizeRemovesSeparators(key: string)
    ensures forall c :: c in Sanitize(key) ==> c != ' ' && c != '=' && c != ',' && c != '.'
  {
    SanitizeByChar(key);
    forall c | c in Sanitize(key)
      ensures c != ' ' && c != '=' && c != ',' && c != '.'
    {
      MapCharsFrom(key, SanitizeChar, c);
    }
  }

  /** Every character of the key other than blank, '=', ',' and '.'
      survives sanitising. */
  lemma SanitizeKeepsOthers(key: string)
    ensures forall c :: c in key && c !in " =,." ==> c in Sanitize(key)
  {
    SanitizeByChar(key);
    forall c | c in key && c !in " =,."
      ensures c in MapChars(key, SanitizeChar)
    {
      var i :| 0 <= i < |key| && key[i] == c;
      KeepsAt(key, i);
    }
  }

  lemma KeepsAt(key: string, i: int)
    requires 0 <= i < |key| && key[i] !in " =,."
    ensures key[i] in MapChars(key, SanitizeChar)
  {
    MapCharsKeeps(key, SanitizeChar, i);
  }

  function PdfName(key: string): string {
    Sanitize(key) + ".pdf"
  }

  /** The PNG name: the PDF name with every "pdf" in it turned into "png". */
  function PngName(key: string): string {
    ReplaceAll(PdfName(key), "pdf", "png")
  }

  /** The extension itself is renamed: ".pdf" becomes ".png". */
  lemma ExtensionRenamed()
    ensures ReplaceAll(".pdf", "pdf", "png") == ".png"
  {
    var e: string := ".pdf";
    assert e[0] == '.' && "pdf"[0] == 'p';
    assert !("pdf" <= e);
    assert e[1..] == "pdf" + "";
    ReplaceHit("", "pdf", "png");
  }

  /** The PNG name is the sanitised key with its own "pdf"s turned into
      "png", plus ".png"; when the sanitised key holds no "pdf" the two
      names differ in their extension only. */
  lemma PngNameShape(key: string)
    ensures PngName(key) == ReplaceAll(Sanitize(key), "pdf", "png") + ".png"
    ensures (forall i :: 0 <= i <= |Sanitize(key)| - 3 ==> !OccursAt(Sanitize(key), "pdf", i)) ==>
      PngName(key) == Sanitize(key) + ".png"
  {
    var s := Sanitize(key);
    ReplaceConcat(s, ".pdf", "pdf", "png");
    ExtensionRenamed();
    if forall i :: 0 <= i <= |s| - 3 ==> !OccursAt(s, "pdf", i) {
      ReplaceAbsent(s, "pdf", "png");
    }
  }

  /** A "pdf" anywhere in the label is renamed as well, so the PNG file of
      such a canvas does not share the PDF file's stem; when the sanitised
      key starts with "pdf", the PNG name starts with "png". */
  lemma LabelPdfRenamed(key: string, i: int)
    requires OccursAt(Sanitize(key), "pdf", i)
    ensures PngName(key) != Sanitize(key) + ".png"
    ensures i == 0 ==> PngName(key)[..3] == "png"
  {
    var s := Sanitize(key);
    var r := ReplaceAll(s, "pdf", "png");
    PngNameShape(key);
    ReplaceChanges(s, "pdf", "png", i);
    assert (r + ".png")[..|r|] == r;
    assert (s + ".png")[..|s|] == s;
    if i == 0 {
      assert s[..3] == s[0..0 + 3];
      PrefixRenamed(s, "pdf", "png", ".png");
    }
  }

  /** A stem starting with the pattern starts, once renamed, with the
      replacement instead. */
  lemma PrefixRenamed(s: string, pat: string, rep: string, ext: string)
    requires pat != [] && |rep| == |pat| && rep != pat
    requires |s| >= |pat| && s[..|pat|] == pat
    ensures (ReplaceAll(s, pat, rep) + ext)[..|rep|] == rep
    ensures ReplaceAll(s, pat, rep) + ext != s + ext
  {
    assert pat <= s;
    var r := ReplaceAll(s, pat, rep);
    assert r == rep + ReplaceAll(s[|pat|..], pat, rep);
    assert (r + ext)[..|rep|] == rep;
    assert (s + ext)[..|pat|] == pat;
  }

  // ---------------------------------------------------------------------
  // Formatting a threshold with "%.0f".

  /** Rounding to the nearest integer, ties to the even one (the default
      rounding of printf). */
  function RoundHalfEven(x: real): (n: int)
    ensures -0.5 <= x - n as real <= 0.5
    ensures x - n as real == 0.5 || x - n as real == -0.5 ==> n % 2 == 0
  {
    var f := x.Floor;
    var d := x - f as real;
    if d < 0.5 then f
    else if d > 0.5 then f + 1
    else if f % 2 == 0 then f else f + 1
  }

  /** Nearest-integer rounding is determined by its two ensures: any
      integer within 1/2, and even on a tie, is the rounded value. */
  lemma RoundHalfEvenUnique(x: real, m: int)
    requires -0.5 <= x - m as real <= 0.5
    requires x - m as real == 0.5 || x - m as real == -0.5 ==> m % 2 == 0
    ensures RoundHalfEven(x) == m
  {
  }

  function Digit(d: int): char
    requires 0 <= d < 10
  {
    "0123456789"[d]
  }

  function DigitValue(c: char): int {
    if '0' <= c <= '9' then c as int - '0' as int else 0
  }

  /** The decimal digits of n, most significant first, without leading
      zeros. */
  function NatDigits(n: nat): (s: string)
    ensures |s| > 0
    ensures forall i :: 0 <= i < |s| ==> '0' <= s[i] <= '9'
    ensures n == 0 ==> s == "0"
    ensures n > 0 ==> s[0] != '0'
    ensures |s| > 1 ==> s[0] != '0'
    decreases n
  {
    if n < 10 then [Digit(n)] else NatDigits(n / 10) + [Digit(n % 10)]
  }

  /** Reads a string of decimal digits back as a number. */
  function ParseNat(s: string): nat
    decreases |s|
  {
    if s == [] then 0
    else ParseNat(s[..|s| - 1]) * 10 + (if '0' <= s[|s| - 1] <= '9' then DigitValue(s[|s| - 1]) else 0)
  }

  lemma {:induction false} NatDigitsRoundTrip(n: nat)
    ensures ParseNat(NatDigits(n)) == n
    decreases n
  {
    var s := NatDigits(n);
    if n >= 10 {
      NatDigitsRoundTrip(n / 10);
      assert s[..|s| - 1] == NatDigits(n / 10);
      assert DigitValue(Digit(n % 10)) == n % 10;
    } else {
      assert s[..0] == [];
      assert DigitValue(Digit(n)) == n;
    }
  }

  /** printf("%.0f", x): the rounded value in decimal, with a '-' for a
      negative x even when it rounds to zero. */
  function FormatThr(x: real): (s: string)
    ensures forall i :: 0 <= i < |s| ==> s[i] == '-' || '0' <= s[i] <= '9'
    ensures forall i :: 0 < i < |s| ==> '0' <= s[i] <= '9'
    ensures |s| > 0 && (s[0] == '-' <==> x < 0.0)
    ensures var d := if s[0] == '-' then s[1..] else s; |d| > 0 && (|d| > 1 ==> d[0] != '0')
  {
    var n := RoundHalfEven(x);
    if x < 0.0 then "-" + NatDigits(if n < 0 then -n else 0) else NatDigits(n)
  }

  /** Reading a formatted threshold back gives the rounded threshold (up to
      the sign of zero). */
  lemma FormatThrRoundTrip(x: real)
    ensures var s := FormatThr(x);
            (if |s| > 0 && s[0] == '-' then -(ParseNat(s[1..]) as int) else ParseNat(s)) == RoundHalfEven(x)
  {
    var n := RoundHalfEven(x);
    var s := FormatThr(x);
    if x < 0.0 {
      assert n <= 0;
      NatDigitsRoundTrip(if n < 0 then -n else 0);
      assert s[1..] == NatDigits(if n < 0 then -n else 0);
    } else {
      assert n >= 0;
      NatDigitsRoundTrip(n);
      assert s[0] != '-';
    }
  }

  /** A formatted threshold starts with '-' exactly when the threshold is
      negative. */
  lemma FormatThrSign(x: real)
    ensures |FormatThr(x)| > 0
    ensures FormatThr(x)[0] == '-' <==> x < 0.0
  {
    var n := RoundHalfEven(x);
    if x >= 0.0 {
      assert FormatThr(x) == NatDigits(n);
    }
  }

  /** Two thresholds print alike exactly when they round to the same
      integer and are on the same side of zero; so -0.3 ("-0") and 0.3
      ("0") print differently although both round to 0. */
  lemma SameFormatIffSameRounding(a: real, b: real)
    ensures FormatThr(a) == FormatThr(b) <==> RoundHalfEven(a) == RoundHalfEven(b) && (a < 0.0 <==> b < 0.0)
  {
    if FormatThr(a) == FormatThr(b) {
      FormatThrSign(a);
      FormatThrSign(b);
      FormatThrRoundTrip(a);
      FormatThrRoundTrip(b);
    }
  }

  /** Two thresholds get the same position-canvas key exactly when they
      print alike: when they round to the same integer and are on the same
      side of zero. */
  lemma SameKeyIffSameRounding(lbl: string, a: real, b: real)
    ensures PosKey(lbl, a) == PosKey(lbl, b) <==> RoundHalfEven(a) == RoundHalfEven(b) && (a < 0.0 <==> b < 0.0)
  {
    var p := PosTitle(lbl) + ", thr=";
    assert PosKey(lbl, a) == p + FormatThr(a) && PosKey(lbl, b) == p + FormatThr(b);
    if PosKey(lbl, a) == PosKey(lbl, b) {
      assert (p + FormatThr(a))[|p|..] == FormatThr(a);
      assert (p + FormatThr(b))[|p|..] == FormatThr(b);
    }
    SameFormatIffSameRounding(a, b);
  }

  /** An instance: 9.8 and 10.2 both print as "10". */
  lemma CloseThresholdsShareName()
    ensures FormatThr(9.8) == FormatThr(10.2)
  {
    RoundHalfEvenUnique(9.8, 10);
    RoundHalfEvenUnique(10.2, 10);
  }

  // ---------------------------------------------------------------------
  // DrawProfiles.

  /** One canvas: its key in fPlots, its title, and the two files it is
      printed to. */
  datatype Plot = Plot(key: string, title: string, pdf: string, png: string)

  /** A canvas printed under its sanitised key: the PDF name is the
      sanitised key plus ".pdf", the PNG name the sanitised key with its
      "pdf"s renamed, plus ".png". */
  predicate Printed(p: Plot) {
    p.pdf == Sanitize(p.key) + ".pdf" && p.png == ReplaceAll(Sanitize(p.key), "pdf", "png") + ".png"
  }

  /** A canvas with its key and title, printed under its key. */
  function MakePlot(key: string, title: string): (p: Plot)
    ensures p.key == key && p.title == title
    ensures Printed(p)
  {
    PngNameShape(key);
    Plot(key, title, PdfName(key), PngName(key))
  }

  /** The canvas keys: the label, then what is plotted. */
  function AmpKey(lbl: string): string { lbl + ", time vs AMP_MAX" }
  function RiseKey(lbl: string): string { lbl + ", time vs risetime" }
  function PosTitle(lbl: string): string { lbl + ", time vs impact point" }
  function PosKey(lbl: string, t: real): string { PosTitle(lbl) + ", thr=" + FormatThr(t) }

  /** DrawProfiles: the amplitude canvas, the rise-time canvas, and one
      impact-point canvas per configured threshold (keyed with the threshold
      in "%.0f"), each printed to a PDF and a PNG file. The first
      threshold's profiles are drawn first, so there must be one. The time
      range only sets the drawn axis ranges. */
  function DrawProfiles(ds: Dataset, timeMin: real := 0.0, timeMax: real := 2.0): (plots: seq<Plot>)
    requires ds.nthr == |ds.thr| && ds.nthr > 0
    ensures |plots| == 2 + |ds.thr|
    ensures plots[0].key == AmpKey(ds.dataLabel) && plots[0].title == plots[0].key
    ensures plots[1].key == RiseKey(ds.dataLabel) && plots[1].title == plots[1].key
    ensures forall i :: 0 <= i < |ds.thr| ==>
      plots[2 + i].key == PosKey(ds.dataLabel, ds.thr[i]) && plots[2 + i].title == PosTitle(ds.dataLabel)
  {
    var l := ds.dataLabel;
    var pos := PosPlots(l, ds.thr);
    var plots := [MakePlot(AmpKey(l), AmpKey(l)), MakePlot(RiseKey(l), RiseKey(l))] + pos;
    assert forall i :: 0 <= i < |pos| ==> plots[2 + i] == pos[i];
    plots
  }

  /** The impact-point canvases, one per threshold in configuration order. */
  function PosPlots(l: string, thr: seq<real>): (plots: seq<Plot>)
    ensures |plots| == |thr|
    ensures forall i :: 0 <= i < |thr| ==>
      plots[i] == MakePlot(PosKey(l, thr[i]), PosTitle(l))
  {
    seq(|thr|, i requires 0 <= i < |thr| => MakePlot(PosKey(l, thr[i]), PosTitle(l)))
  }

  /** A printed canvas's PDF name is a stem free of blanks, '=', ',' and
      '.' followed by ".pdf". */
  lemma PrintedStem(p: Plot)
    requires Printed(p)
    ensures exists stem :: p.pdf == stem + ".pdf" && (forall c :: c in stem ==> c !in " =,.")
  {
    SanitizeRemovesSeparators(p.key);
    var stem := Sanitize(p.key);
    assert forall c :: c in stem ==> c !in " =,.";
  }

  /** Every canvas DrawProfiles creates is printed under its sanitised key. */
  lemma DrawProfilesPrinted(ds: Dataset, timeMin: real, timeMax: real)
    requires ds.nthr == |ds.thr| && ds.nthr > 0
    ensures var plots := DrawProfiles(ds, timeMin, timeMax);
            forall j :: 0 <= j < |plots| ==> Printed(plots[j])
  {
    forall j | 0 <= j < 2 + |ds.thr|
      ensures Printed(DrawProfiles(ds, timeMin, timeMax)[j])
    {
      PlotPrinted(ds, timeMin, timeMax, j);
    }
  }

  lemma PlotPrinted(ds: Dataset, timeMin: real, timeMax: real, j: int)
    requires ds.nthr == |ds.thr| && ds.nthr > 0 && 0 <= j < 2 + ds.nthr
    ensures Printed(DrawProfiles(ds, timeMin, timeMax)[j])
  {
    if j < 2 {
      FixedPlotsPrinted(ds, timeMin, timeMax);
    } else {
      PosPlotsPrinted(ds, timeMin, timeMax, j - 2);
    }
  }

  lemma FixedPlotsPrinted(ds: Dataset, timeMin: real, timeMax: real)
    requires ds.nthr == |ds.thr| && ds.nthr > 0
    ensures Printed(DrawProfiles(ds, timeMin, timeMax)[0]) && Printed(DrawProfiles(ds, timeMin, timeMax)[1])
  {
  }

  lemma PosPlotsPrinted(ds: Dataset, timeMin: real, timeMax: real, i: int)
    requires ds.nthr == |ds.thr| && 0 <= i < ds.nthr
    ensures Printed(DrawProfiles(ds, timeMin, timeMax)[2 + i])
  {
    assert DrawProfiles(ds, timeMin, timeMax)[2 + i] == PosPlots(ds.dataLabel, ds.thr)[i];
  }

  /** Every PDF name DrawProfiles prints to is a stem free of blanks, '=',
      ',' and '.' followed by ".pdf". */
  lemma DrawProfilesFileNames(ds: Dataset, timeMin: real, timeMax: real)
    requires ds.nthr == |ds.thr| && ds.nthr > 0
    ensures var plots := DrawProfiles(ds, timeMin, timeMax);
            forall j :: 0 <= j < |plots| ==>
              exists stem :: plots[j].pdf == stem + ".pdf" && (forall c :: c in stem ==> c !in " =,.")
  {
    var plots := DrawProfiles(ds, timeMin, timeMax);
    DrawProfilesPrinted(ds, timeMin, timeMax);
    forall j | 0 <= j < |plots|
      ensures exists stem :: plots[j].pdf == stem + ".pdf" && (forall c :: c in stem ==> c !in " =,.")
    {
      PrintedStem(plots[j]);
    }
  }
}
