/**
 * `generate_batch_svgs` (src/main.rs): one SVG per colour pair of the CSV
 * text, written into the output directory under a name built from the two
 * canonical hex codes. The file system is modelled as the list of writes the
 * function performs, in order, and the directory that results from them.
 */
module Batch {
  import opened Wrappers
  import opened Color
  import opened Config
  import opened Spoke
  import opened Svg
  import opened ColorPairs
  import Text

  /** One `svg::save`: the file name inside the output directory and the document saved there. */
  datatype Write = Write(filename: string, doc: Document)

  /** The file name a pair is saved under (the canvas size in it is fixed text, not the configured size). */
  function BatchFileName(rimHex: string, armHex: string): string {
    "xhMan_256px-rim-" + rimHex + "_arms-" + armHex + ".svg"
  }

  /** A parsed colour made fully opaque, as the batch assigns it. */
  function Opaque(rgb: Rgb): (c: Rgba)
    ensures c.a == 1.0 && Rgb(c.r, c.g, c.b) == rgb
  {
    Rgba(rgb.r, rgb.g, rgb.b, 1.0)
  }

  /** The configuration the batch renders a pair with: the base one, with both colours replaced. */
  function Recolored(c: CrosshairConfig, p: Pair): CrosshairConfig {
    c.(rimColor := Opaque(p.rim.rgb), armColor := Opaque(p.arms.rgb))
  }

  /** The writes the batch performs for `pairs`, in order. */
  function BatchWrites(c: CrosshairConfig, pairs: seq<Pair>, direction: real -> Point): (ws: seq<Write>)
    ensures |ws| == |pairs|
    ensures forall i :: 0 <= i < |pairs| ==>
              ws[i].filename == BatchFileName(pairs[i].rim.hex, pairs[i].arms.hex)
  {
    seq(|pairs|, i requires 0 <= i < |pairs| =>
      Write(BatchFileName(pairs[i].rim.hex, pairs[i].arms.hex), GenerateSvg(Recolored(c, pairs[i]), direction)))
  }

  /**
   * The loop of `generate_batch_svgs` over already loaded pairs: one working
   * copy of the configuration, recoloured for each pair in turn.
   */
  method RenderPairs(config: CrosshairConfig, pairs: seq<Pair>, direction: real -> Point)
    returns (writes: seq<Write>, count: nat)
    ensures writes == BatchWrites(config, pairs, direction)
    ensures count == |pairs|
  {
    var cfg := config;
    writes := [];
    for idx := 0 to |pairs|
      invariant cfg.(rimColor := config.rimColor, armColor := config.armColor) == config
      invariant writes == BatchWrites(config, pairs[..idx], direction)
    {
      var p := pairs[idx];
      cfg := cfg.(rimColor := Rgba(p.rim.rgb.r, p.rim.rgb.g, p.rim.rgb.b, 1.0));
      cfg := cfg.(armColor := Rgba(p.arms.rgb.r, p.arms.rgb.g, p.arms.rgb.b, 1.0));
      assert cfg == Recolored(config, p);
      var filename := BatchFileName(p.rim.hex, p.arms.hex);
      var doc := GenerateSvg(cfg, direction);
      writes := writes + [Write(filename, doc)];
      assert pairs[..idx + 1] == pairs[..idx] + [p];
    }
    assert pairs[..|pairs|] == pairs;
    count := |pairs|;
  }

  /**
   * `generate_batch_svgs`: load the pairs, then save one document per pair;
   * a load error aborts before anything is written. The count is the number
   * of pairs.
   */
  method GenerateBatchSvgs(config: CrosshairConfig, lines: seq<string>, direction: real -> Point)
    returns (r: Result<nat, LoadError>, writes: seq<Write>)
    ensures ParseLines(lines).Failure? ==> r == Failure(ParseLines(lines).error) && writes == []
    ensures ParseLines(lines).Success? ==>
              && r == Success(|ParseLines(lines).value|)
              && writes == BatchWrites(config, ParseLines(lines).value, direction)
  {
    var loaded := LoadColorPairs(lines);
    if loaded.Failure? {
      return Failure(loaded.error), [];
    }
    var count;
    writes, count := RenderPairs(config, loaded.value, direction);
    r := Success(count);
  }

  /**
   * Each saved document carries the pair's colours, fully opaque, and
   * everything else of the base configuration: size, ring and arm outlines.
   */
  lemma WritesCarryPairColors(c: CrosshairConfig, pairs: seq<Pair>, direction: real -> Point, i: nat)
    requires i < |pairs|
    ensures var doc := BatchWrites(c, pairs, direction)[i].doc;
            var base := GenerateSvg(c, direction);
            && doc.ring.stroke == Opaque(pairs[i].rim.rgb)
            && (forall k :: 0 <= k < |doc.arms| ==> doc.arms[k].fill == Opaque(pairs[i].arms.rgb))
            && doc.width == base.width && doc.height == base.height
            && doc.ring.(stroke := c.rimColor) == base.ring
            && |doc.arms| == |base.arms|
            && (forall k :: 0 <= k < |doc.arms| ==> doc.arms[k].d == base.arms[k].d)
  {
    var rc := Recolored(c, pairs[i]);
    assert ArmShape(rc) == ArmShape(c);
    assert forall u :: ArmFrame(rc, u) == ArmFrame(c, u);
  }

  /** The output directory after the writes, by file name: a later save replaces an earlier one. */
  function DirectoryAfter(writes: seq<Write>): (dir: map<string, Document>)
    ensures dir.Keys == set w | w in writes :: w.filename
  {
    if writes == [] then map[]
    else
      var last := writes[|writes| - 1];
      var before := writes[..|writes| - 1];
      assert writes == before + [last];
      DirectoryAfter(before)[last.filename := last.doc]
  }

  /** A file holds the document of the last write that used its name. */
  lemma {:induction false} LastWriteWins(writes: seq<Write>, k: nat)
    requires k < |writes|
    requires forall j :: k < j < |writes| ==> writes[j].filename != writes[k].filename
    ensures DirectoryAfter(writes)[writes[k].filename] == writes[k].doc
  {
    if k < |writes| - 1 {
      LastWriteWins(writes[..|writes| - 1], k);
    }
  }

  /** Two pairs share a file name exactly when they have the same two hex codes. */
  lemma FileNameIdentifiesPair(rim1: string, arms1: string, rim2: string, arms2: string)
    requires |rim1| == 6 && |rim2| == 6
    ensures BatchFileName(rim1, arms1) == BatchFileName(rim2, arms2) <==> rim1 == rim2 && arms1 == arms2
  {
    var prefix := "xhMan_256px-rim-";
    if BatchFileName(rim1, arms1) == BatchFileName(rim2, arms2) {
      var n1 := BatchFileName(rim1, arms1);
      var n2 := BatchFileName(rim2, arms2);
      assert rim1 == n1[|prefix|..|prefix| + 6] == n2[|prefix|..|prefix| + 6] == rim2;
      var tail1 := "_arms-" + arms1 + ".svg";
      var tail2 := "_arms-" + arms2 + ".svg";
      assert n1 == prefix + rim1 + tail1 && n2 == prefix + rim2 + tail2;
      assert tail1 == n1[|prefix| + 6..] == n2[|prefix| + 6..] == tail2;
      assert arms1 == tail1[6..|tail1| - 4] == tail2[6..|tail2| - 4] == arms2;
    }
  }

  /** The directory holds exactly the files named after the batch's pairs. */
  lemma FilesNamedAfterPairs(c: CrosshairConfig, pairs: seq<Pair>, direction: real -> Point)
    ensures DirectoryAfter(BatchWrites(c, pairs, direction)).Keys ==
              set p | p in pairs :: BatchFileName(p.rim.hex, p.arms.hex)
  {
    var ws := BatchWrites(c, pairs, direction);
    forall f | f in DirectoryAfter(ws).Keys
      ensures f in set p | p in pairs :: BatchFileName(p.rim.hex, p.arms.hex)
    {
      var w :| w in ws && w.filename == f;
      var i :| 0 <= i < |ws| && ws[i] == w;
      assert pairs[i] in pairs;
    }
    forall f | f in set p | p in pairs :: BatchFileName(p.rim.hex, p.arms.hex)
      ensures f in DirectoryAfter(ws).Keys
    {
      var p :| p in pairs && BatchFileName(p.rim.hex, p.arms.hex) == f;
      var i :| 0 <= i < |pairs| && pairs[i] == p;
      assert ws[i] in ws;
    }
  }

  /** A pair listed twice leaves one file behind, holding the second rendering. */
  lemma DuplicatePairOneFile(c: CrosshairConfig, p: Pair, direction: real -> Point)
    ensures var ws := BatchWrites(c, [p, p], direction);
            var dir := DirectoryAfter(ws);
            && |dir| == 1
            && dir[ws[1].filename] == ws[1].doc
  {
    var ws := BatchWrites(c, [p, p], direction);
    assert ws[0].filename == ws[1].filename;
    assert (set w | w in ws :: w.filename) == {ws[0].filename};
    LastWriteWins(ws, 1);
  }

  /**
   * When no two pairs share both hex codes and every code is canonical, the
   * directory keeps every pair's document under that pair's name.
   */
  lemma EveryPairKept(c: CrosshairConfig, pairs: seq<Pair>, direction: real -> Point, i: nat)
    requires i < |pairs|
    requires forall j :: 0 <= j < |pairs| ==> IsCanonicalHex(pairs[j].rim.hex)
    requires forall j, k :: 0 <= j < k < |pairs| ==>
               (pairs[j].rim.hex, pairs[j].arms.hex) != (pairs[k].rim.hex, pairs[k].arms.hex)
    ensures var ws := BatchWrites(c, pairs, direction);
            DirectoryAfter(ws)[ws[i].filename] == ws[i].doc
  {
    var ws := BatchWrites(c, pairs, direction);
    forall j | i < j < |ws| ensures ws[j].filename != ws[i].filename {
      FileNameIdentifiesPair(pairs[i].rim.hex, pairs[i].arms.hex, pairs[j].rim.hex, pairs[j].arms.hex);
    }
    LastWriteWins(ws, i);
  }

  /** A data row spelling two colours canonically yields those two colours. */
  lemma CanonicalRow(idx: nat, line: string, a: Rgb, b: Rgb)
    requires idx > 0 && line == EncodeHex(a) + "," + EncodeHex(b)
    ensures ParseRow(idx, line) == Success(Some(Pair(ColorSpec(a, EncodeHex(a)), ColorSpec(b, EncodeHex(b)))))
  {
    var ha, hb := EncodeHex(a), EncodeHex(b);
    assert line[0] == ha[0] && line[|line| - 1] == hb[5];
    Text.TrimKeepsUnpadded(line);
    SplitAtFirst(ha, hb, ',');
    ParseEncoded(a);
    ParseEncoded(b);
  }

  /** The canonical codes of the colours in the example below. */
  lemma ExampleCodes()
    ensures EncodeHex(Rgb(255, 0, 0)) == "FF0000" && EncodeHex(Rgb(0, 255, 0)) == "00FF00"
    ensures EncodeHex(Rgb(0, 0, 255)) == "0000FF" && EncodeHex(Rgb(255, 255, 255)) == "FFFFFF"
  {
  }

  /** The file names of the example below. */
  lemma ExampleNames()
    ensures BatchFileName("FF0000", "00FF00") == "xhMan_256px-rim-FF0000_arms-00FF00.svg"
    ensures BatchFileName("0000FF", "FFFFFF") == "xhMan_256px-rim-0000FF_arms-FFFFFF.svg"
  {
  }

  /** The rows of the example below, spelt as canonical codes. */
  lemma ExampleRows(lines: seq<string>)
    requires lines == ["rim,arms", "FF0000,00FF00", "0000FF,FFFFFF"]
    ensures lines[1] == EncodeHex(Rgb(255, 0, 0)) + "," + EncodeHex(Rgb(0, 255, 0))
    ensures lines[2] == EncodeHex(Rgb(0, 0, 255)) + "," + EncodeHex(Rgb(255, 255, 255))
  {
  }

  /** A header and two data rows give the rows' two pairs, in row order. */
  lemma TwoDataRows(lines: seq<string>, p1: Pair, p2: Pair)
    requires |lines| == 3
    requires ParseRow(1, lines[1]) == Success(Some(p1))
    requires ParseRow(2, lines[2]) == Success(Some(p2))
    ensures ParseLines(lines) == Success([p1, p2])
  {
    StepSkip(lines, 0);
    Pushed(lines, 1, [], p1);
    assert [] + [p1] == [p1];
    Pushed(lines, 2, [p1], p2);
    assert [p1] + [p2] == [p1, p2];
  }

  /** The example CSV: a header, red on green, then blue on white. */
  // The literals are parameters fixed by `requires`; written inline, the solver
  // expands them on every step and the proof no longer fits its resource limit.
  lemma TwoRowCsv(c: CrosshairConfig, direction: real -> Point, lines: seq<string>)
    requires lines == ["rim,arms", "FF0000,00FF00", "0000FF,FFFFFF"]
    ensures var loaded := ParseLines(lines);
            && loaded.Success?
            && |loaded.value| == 2
            && var ws := BatchWrites(c, loaded.value, direction);
               && ws[0].filename == "xhMan_256px-rim-FF0000_arms-00FF00.svg"
               && ws[1].filename == "xhMan_256px-rim-0000FF_arms-FFFFFF.svg"
  {
    var red, green, blue, white := Rgb(255, 0, 0), Rgb(0, 255, 0), Rgb(0, 0, 255), Rgb(255, 255, 255);
    ExampleRows(lines);
    ExampleCodes();
    ExampleNames();
    CanonicalRow(1, lines[1], red, green);
    CanonicalRow(2, lines[2], blue, white);
    TwoDataRows(lines, Pair(ColorSpec(red, "FF0000"), ColorSpec(green, "00FF00")),
                       Pair(ColorSpec(blue, "0000FF"), ColorSpec(white, "FFFFFF")));
  }

  /** A row whose first colour is not hex fails with that colour's error. */
  // The literals are parameters fixed by `requires`; written inline, the solver
  // expands them on every step and the proof no longer fits its resource limit.
  lemma NonHexRow(line: string, rim: string, arms: string)
    requires rim == "ZZZZZZ" && arms == "00FF00" && line == rim + "," + arms
    ensures ParseRow(1, line) == Failure(BadColor(InvalidHexColor(rim)))
  {
    assert rim[0] == 'Z';
    BadRimRejected(1, rim, arms, 'Z');
  }

  /**
   * A malformed colour aborts the load with that colour's error, so the
   * batch writes nothing, not even for the valid row after it.
   */
  // The literals are parameters fixed by `requires`; written inline, the solver
  // expands them on every step and the proof no longer fits its resource limit.
  lemma MalformedRowAborts(lines: seq<string>, rim: string)
    requires rim == "ZZZZZZ"
    requires lines == ["rim,arms", "ZZZZZZ,00FF00", "FF0000,00FF00"]
    ensures ParseLines(lines) == Failure(BadColor(InvalidHexColor(rim)))
  {
    var arms := "00FF00";
    assert lines[1] == rim + "," + arms;
    NonHexRow(lines[1], rim, arms);
    StepSkip(lines, 0);
    StepStop(lines, 1, BadColor(InvalidHexColor(rim)));
  }
}
