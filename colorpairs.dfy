/**
 * The row loop of `load_color_pairs` (src/main.rs): the CSV text, already
 * split into lines, becomes the list of (rim, arms) colour pairs, or the
 * first error met.
 */
module ColorPairs {
  import opened Wrappers
  import opened Text
  import opened Color

  /** One CSV row: the rim colour, then the arms colour. */
  datatype Pair = Pair(rim: ColorSpec, arms: ColorSpec)

  /** A colour token the parser refused, or a row without a comma, with its 1-based number. */
  datatype LoadError = BadColor(error: ColorError) | InvalidRow(row: nat, line: string)

  /** `str::split_once`: the text before the first `sep` and the text after it. */
  function SplitOnce(s: string, sep: char): (r: Option<(string, string)>)
    ensures r.None? <==> sep !in s
    ensures r.Some? ==> s == r.value.0 + [sep] + r.value.1 && sep !in r.value.0
  {
    if s == [] then None
    else if s[0] == sep then Some(([], s[1..]))
    else
      match SplitOnce(s[1..], sep)
      case None => None
      case Some(parts) =>
        assert s == [s[0]] + s[1..];
        Some(([s[0]] + parts.0, parts.1))
  }

  /** Splitting text built around a first separator gives back its two sides. */
  lemma {:induction false} SplitAtFirst(a: string, b: string, sep: char)
    requires sep !in a
    ensures SplitOnce(a + [sep] + b, sep) == Some((a, b))
  {
    if a != [] {
      assert (a + [sep] + b)[1..] == a[1..] + [sep] + b;
      SplitAtFirst(a[1..], b, sep);
      assert [a[0]] + a[1..] == a;
    }
  }

  /** `line.trim().is_empty()`. */
  predicate IsBlank(line: string) {
    Trim(line) == []
  }

  /**
   * One pass of the loop: the header (index 0) and blank lines yield nothing;
   * any other line must hold a comma and two colours, rim first.
   */
  function ParseRow(idx: nat, line: string): Result<Option<Pair>, LoadError>
  {
    if idx == 0 || IsBlank(line) then Success(None)
    else
      match SplitOnce(line, ',')
      case None => Failure(InvalidRow(idx + 1, line))
      case Some((outer, inner)) =>
        match ParseColorSpec(outer)
        case Failure(e) => Failure(BadColor(e))
        case Success(rim) =>
          match ParseColorSpec(inner)
          case Failure(e) => Failure(BadColor(e))
          case Success(arms) => Success(Some(Pair(rim, arms)))
  }

  /**
   * What one row yields: nothing for the header and blank lines, a row error
   * carrying the 1-based row number for a line without a comma, and otherwise
   * the two colours split at the first comma, both of which must parse.
   */
  lemma RowOutcome(idx: nat, line: string)
    ensures ParseRow(idx, line) == Success(None) <==> idx == 0 || IsBlank(line)
    ensures idx > 0 && !IsBlank(line) && ',' !in line ==> ParseRow(idx, line) == Failure(InvalidRow(idx + 1, line))
    ensures ParseRow(idx, line).Failure? && ParseRow(idx, line).error.InvalidRow? ==>
              ParseRow(idx, line).error == InvalidRow(idx + 1, line) && ',' !in line && !IsBlank(line)
    ensures idx > 0 && !IsBlank(line) && ',' in line ==>
              var parts := SplitOnce(line, ',').value;
              && (ParseRow(idx, line).Success? <==> IsHexBody(HexCore(parts.0)) && IsHexBody(HexCore(parts.1)))
              && (ParseRow(idx, line).Success? ==>
                    ParseRow(idx, line).value == Some(Pair(ParseColorSpec(parts.0).value, ParseColorSpec(parts.1).value)))
              && (!IsHexBody(HexCore(parts.0)) ==>
                    ParseRow(idx, line) == Failure(BadColor(InvalidHexColor(parts.0))))
              && (IsHexBody(HexCore(parts.0)) && !IsHexBody(HexCore(parts.1)) ==>
                    ParseRow(idx, line) == Failure(BadColor(InvalidHexColor(parts.1))))
  {
  }

  /**
   * Only the first comma splits a row: a second comma stays in the arms token,
   * which then fails to parse, so the row is rejected.
   */
  lemma ExtraCommaRejected(idx: nat, line: string)
    requires idx > 0 && !IsBlank(line)
    requires SplitOnce(line, ',').Some? && ',' in SplitOnce(line, ',').value.1
    ensures ParseRow(idx, line).Failure? && ParseRow(idx, line).error.BadColor?
  {
    var (outer, inner) := SplitOnce(line, ',').value;
    ForeignCharRejected(inner, ',');
  }

  /**
   * The rim colour is parsed first: a rim token holding a character that can
   * never be part of a colour fails the row with the rim's own error, whatever
   * the arms token holds.
   */
  lemma BadRimRejected(idx: nat, rim: string, arms: string, c: char)
    requires idx > 0 && ',' !in rim
    requires c in rim && !IsWhitespace(c) && c != '#' && !IsAsciiHexDigit(c)
    ensures ParseRow(idx, rim + "," + arms) == Failure(BadColor(InvalidHexColor(rim)))
  {
    var line := rim + "," + arms;
    SplitAtFirst(rim, arms, ',');
    assert c in line by {
      var i :| 0 <= i < |rim| && rim[i] == c;
      assert line[i] == c;
    }
    TrimKeepsContent(line, c);
    ForeignCharRejected(rim, c);
  }

  /** What one line yields to the loop: nothing, a pair, or the error that ends it. */
  type RowResult = Result<Option<Pair>, LoadError>

  /** What each line yields at its own index. */
  function RowResults(lines: seq<string>): (rs: seq<RowResult>)
    ensures |rs| == |lines|
    ensures forall k :: 0 <= k < |lines| ==> rs[k] == ParseRow(k, lines[k])
  {
    seq(|lines|, k requires 0 <= k < |lines| => ParseRow(k, lines[k]))
  }

  /** The loop's outcome after its first `n` rows: the pairs so far, or the first error. */
  function Collect(rs: seq<RowResult>, n: nat): Result<seq<Pair>, LoadError>
    requires n <= |rs|
  {
    if n == 0 then Success([])
    else
      match Collect(rs, n - 1)
      case Failure(e) => Failure(e)
      case Success(pairs) =>
        match rs[n - 1]
        case Failure(e) => Failure(e)
        case Success(None) => Success(pairs)
        case Success(Some(p)) => Success(pairs + [p])
  }

  /** The loop's outcome after its first `n` lines. */
  function ParsePrefix(lines: seq<string>, n: nat): Result<seq<Pair>, LoadError>
    requires n <= |lines|
  {
    Collect(RowResults(lines), n)
  }

  /** What the row loop of `load_color_pairs` returns for the whole text. */
  function ParseLines(lines: seq<string>): Result<seq<Pair>, LoadError> {
    ParsePrefix(lines, |lines|)
  }

  /** Once an error has been met, no later row changes the outcome. */
  lemma {:induction false} FailureSticks(rs: seq<RowResult>, i: nat, j: nat)
    requires i <= j <= |rs|
    requires Collect(rs, i).Failure?
    ensures Collect(rs, j) == Collect(rs, i)
    decreases j
  {
    if j > i {
      FailureSticks(rs, i, j - 1);
    }
  }

  /** A row that yields nothing leaves the outcome as it was. */
  lemma CollectSkip(rs: seq<RowResult>, pairs: seq<Pair>)
    requires Collect(rs, |rs|) == Success(pairs)
    ensures Collect(rs + [Success(None)], |rs| + 1) == Success(pairs)
  {
    CollectAgree(rs + [Success(None)], rs, |rs|);
  }

  /** A row that yields a pair appends it to the pairs loaded so far. */
  lemma CollectPush(rs: seq<RowResult>, pairs: seq<Pair>, p: Pair)
    requires Collect(rs, |rs|) == Success(pairs)
    ensures Collect(rs + [Success(Some(p))], |rs| + 1) == Success(pairs + [p])
  {
    CollectAgree(rs + [Success(Some(p))], rs, |rs|);
  }

  /** A failing row ends the load with its error. */
  lemma CollectStop(rs: seq<RowResult>, e: LoadError)
    requires Collect(rs, |rs|).Success?
    ensures Collect(rs + [Failure(e)], |rs| + 1) == Failure(e)
  {
    CollectAgree(rs + [Failure(e)], rs, |rs|);
  }

  /** `rs` holds what each of the first `|rs|` lines yields at its index. */
  predicate RowsOf(lines: seq<string>, rs: seq<RowResult>) {
    && |rs| <= |lines|
    && forall k {:trigger ParseRow(k, lines[k])} :: 0 <= k < |rs| ==> rs[k] == ParseRow(k, lines[k])
  }

  lemma RowsOfExtend(lines: seq<string>, rs: seq<RowResult>, row: RowResult)
    requires RowsOf(lines, rs) && |rs| < |lines|
    requires row == ParseRow(|rs|, lines[|rs|])
    ensures RowsOf(lines, rs + [row])
  {
    forall k | 0 <= k < |rs| + 1 ensures (rs + [row])[k] == ParseRow(k, lines[k]) {
      if k < |rs| {
        assert rs[k] == ParseRow(k, lines[k]);
      }
    }
  }

  /** The row results of a whole text, or of a prefix ending in a failure, give the load's outcome. */
  lemma RowsOfLoad(lines: seq<string>, rs: seq<RowResult>)
    requires RowsOf(lines, rs)
    requires |rs| == |lines| || Collect(rs, |rs|).Failure?
    ensures ParseLines(lines) == Collect(rs, |rs|)
  {
    var all := RowResults(lines);
    forall k | 0 <= k < |rs| ensures all[k] == rs[k] {
      assert rs[k] == ParseRow(k, lines[k]);
    }
    CollectAgree(all, rs, |rs|);
    if |rs| < |lines| {
      FailureSticks(all, |rs|, |lines|);
    }
  }

  /** A skipped line leaves the outcome as it was. */
  lemma StepSkip(lines: seq<string>, idx: nat)
    requires idx < |lines| && ParsePrefix(lines, idx).Success?
    requires ParseRow(idx, lines[idx]) == Success(None)
    ensures ParsePrefix(lines, idx + 1) == ParsePrefix(lines, idx)
  {
    assert RowResults(lines)[idx] == Success(None);
  }

  /** A data row appends its pair to the pairs loaded so far. */
  lemma Pushed(lines: seq<string>, idx: nat, pairs: seq<Pair>, p: Pair)
    requires idx < |lines| && ParsePrefix(lines, idx) == Success(pairs)
    requires ParseRow(idx, lines[idx]) == Success(Some(p))
    ensures ParsePrefix(lines, idx + 1) == Success(pairs + [p])
  {
    assert RowResults(lines)[idx] == Success(Some(p));
  }

  /** The first failing row decides the outcome of the whole text. */
  lemma StepStop(lines: seq<string>, idx: nat, e: LoadError)
    requires idx < |lines| && ParsePrefix(lines, idx).Success?
    requires ParseRow(idx, lines[idx]) == Failure(e)
    ensures ParseLines(lines) == Failure(e)
  {
    var rs := RowResults(lines);
    assert rs[idx] == Failure(e);
    assert Collect(rs, idx + 1) == Failure(e);
    FailureSticks(rs, idx + 1, |lines|);
  }

  /** The row loop of `load_color_pairs`, over the lines of the CSV text. */
  method LoadColorPairs(lines: seq<string>) returns (r: Result<seq<Pair>, LoadError>)
    ensures r == ParseLines(lines)
  {
    var pairs: seq<Pair> := [];
    var idx := 0;
    ghost var rs: seq<RowResult> := [];
    while idx < |lines|
      invariant idx <= |lines| && |rs| == idx
      invariant RowsOf(lines, rs)
      invariant Collect(rs, idx) == Success(pairs)
    {
      var line := lines[idx];
      if idx == 0 || Trim(line) == [] {
        RowsOfExtend(lines, rs, Success(None));
        CollectSkip(rs, pairs);
        rs := rs + [Success(None)];
        idx := idx + 1;
        continue;
      }
      var split := SplitOnce(line, ',');
      if split.None? {
        r := Failure(InvalidRow(idx + 1, line));
        Stop(lines, rs, r.error);
        return;
      }
      var (outer, inner) := split.value;
      var rim := ParseColorSpec(outer);
      if rim.Failure? {
        r := Failure(BadColor(rim.error));
        Stop(lines, rs, r.error);
        return;
      }
      var arms := ParseColorSpec(inner);
      if arms.Failure? {
        r := Failure(BadColor(arms.error));
        Stop(lines, rs, r.error);
        return;
      }
      var p := Pair(rim.value, arms.value);
      RowsOfExtend(lines, rs, Success(Some(p)));
      CollectPush(rs, pairs, p);
      rs := rs + [Success(Some(p))];
      pairs := pairs + [p];
      idx := idx + 1;
    }
    RowsOfLoad(lines, rs);
    r := Success(pairs);
  }

  /** The loop's early return: the failing row's error is the load's outcome. */
  lemma Stop(lines: seq<string>, rs: seq<RowResult>, e: LoadError)
    requires RowsOf(lines, rs) && |rs| < |lines| && Collect(rs, |rs|).Success?
    requires ParseRow(|rs|, lines[|rs|]) == Failure(e)
    ensures ParseLines(lines) == Failure(e)
  {
    RowsOfExtend(lines, rs, Failure(e));
    CollectStop(rs, e);
    RowsOfLoad(lines, rs + [Failure(e)]);
  }

  /** Row results that agree on the first `n` rows give the same outcome there. */
  lemma {:induction false} CollectAgree(a: seq<RowResult>, b: seq<RowResult>, n: nat)
    requires n <= |a| && n <= |b|
    requires forall k :: 0 <= k < n ==> a[k] == b[k]
    ensures Collect(a, n) == Collect(b, n)
  {
    if n > 0 {
      CollectAgree(a, b, n - 1);
    }
  }

  /** The outcome depends on each line only through what that line yields at its index. */
  lemma RowsAgree(a: seq<string>, b: seq<string>, n: nat)
    requires n <= |a| && n <= |b|
    requires forall k :: 0 <= k < n ==> ParseRow(k, a[k]) == ParseRow(k, b[k])
    ensures ParsePrefix(a, n) == ParsePrefix(b, n)
  {
    var ra, rb := RowResults(a), RowResults(b);
    forall k | 0 <= k < n ensures ra[k] == rb[k] {
      assert ra[k] == ParseRow(k, a[k]);
    }
    CollectAgree(ra, rb, n);
  }

  /** The header line is never looked at: replacing it changes nothing. */
  lemma HeaderIgnored(lines: seq<string>, header: string)
    requires |lines| > 0
    ensures ParseLines(lines[0 := header]) == ParseLines(lines)
  {
    RowsAgree(lines[0 := header], lines, |lines|);
  }

  /** Lines after the first failing row are never looked at. */
  lemma LaterLinesIgnored(lines: seq<string>, rest: seq<string>)
    requires ParseLines(lines).Failure?
    ensures ParseLines(lines + rest) == ParseLines(lines)
  {
    var all := lines + rest;
    RowsAgree(all, lines, |lines|);
    FailureSticks(RowResults(all), |lines|, |all|);
  }

  /** A failed outcome is the error of its first failing row; the rows before it succeeded. */
  lemma {:induction false} CollectFirstFailure(rs: seq<RowResult>, n: nat) returns (k: nat)
    requires n <= |rs| && Collect(rs, n).Failure?
    ensures k < n
    ensures rs[k] == Failure(Collect(rs, n).error)
    ensures forall j :: 0 <= j < k ==> rs[j].Success?
    ensures Collect(rs, k).Success?
  {
    if Collect(rs, n - 1).Failure? {
      k := CollectFirstFailure(rs, n - 1);
    } else {
      k := n - 1;
      CollectSuccess(rs, k);
    }
  }

  /** The first `n` rows give a result exactly when none of them failed. */
  lemma {:induction false} CollectSuccess(rs: seq<RowResult>, n: nat)
    requires n <= |rs|
    ensures Collect(rs, n).Success? <==> forall k :: 0 <= k < n ==> rs[k].Success?
  {
    if n > 0 {
      CollectSuccess(rs, n - 1);
    }
  }

  /** A failed load names the first row that failed; every row before it succeeded. */
  lemma FirstFailure(lines: seq<string>, n: nat) returns (k: nat)
    requires n <= |lines| && ParsePrefix(lines, n).Failure?
    ensures k < n
    ensures ParseRow(k, lines[k]) == Failure(ParsePrefix(lines, n).error)
    ensures forall j :: 0 <= j < k ==> ParseRow(j, lines[j]).Success?
    ensures ParsePrefix(lines, k).Success?
  {
    var rs := RowResults(lines);
    k := CollectFirstFailure(rs, n);
    forall j | 0 <= j < k ensures ParseRow(j, lines[j]).Success? {
      assert rs[j].Success?;
    }
  }

  /** A prefix loads exactly when every row in it yields a result. */
  lemma PrefixSuccess(lines: seq<string>, n: nat)
    requires n <= |lines|
    ensures ParsePrefix(lines, n).Success? <==> forall k :: 0 <= k < n ==> ParseRow(k, lines[k]).Success?
  {
    var rs := RowResults(lines);
    CollectSuccess(rs, n);
    if forall k :: 0 <= k < n ==> ParseRow(k, lines[k]).Success? {
      assert forall k :: 0 <= k < n ==> rs[k].Success?;
    }
  }

  /** The whole text loads exactly when no row fails. */
  lemma LoadSucceedsIff(lines: seq<string>)
    ensures ParseLines(lines).Success? <==> forall k :: 0 <= k < |lines| ==> ParseRow(k, lines[k]).Success?
  {
    PrefixSuccess(lines, |lines|);
  }

  /**
   * A row error names a line of the text by its 1-based number: never the
   * header, a line that is not blank and holds no comma.
   */
  lemma InvalidRowReported(lines: seq<string>, row: nat, line: string)
    requires ParseLines(lines) == Failure(InvalidRow(row, line))
    ensures 2 <= row <= |lines|
    ensures lines[row - 1] == line
    ensures ',' !in line && !IsBlank(line)
  {
    var k := FirstFailure(lines, |lines|);
    RowErrorAt(k, lines[k], row, line);
  }

  /** Only a data row without a comma fails with a row error, and the error quotes that row. */
  lemma RowErrorAt(idx: nat, line: string, row: nat, quoted: string)
    requires ParseRow(idx, line) == Failure(InvalidRow(row, quoted))
    ensures idx > 0 && row == idx + 1 && quoted == line
    ensures ',' !in line && !IsBlank(line)
  {
  }

  /** The indices, among the first `n`, of the lines that hold data: not the header, not blank. */
  function DataRows(lines: seq<string>, n: nat): seq<nat>
    requires n <= |lines|
  {
    if n == 0 then []
    else if n - 1 >= 1 && !IsBlank(lines[n - 1]) then DataRows(lines, n - 1) + [n - 1]
    else DataRows(lines, n - 1)
  }

  /** Every data row is a non-header, non-blank line, and they are listed in increasing order. */
  lemma {:induction false} DataRowsSorted(lines: seq<string>, n: nat)
    requires n <= |lines|
    ensures forall j :: 0 <= j < |DataRows(lines, n)| ==>
              1 <= DataRows(lines, n)[j] < n && !IsBlank(lines[DataRows(lines, n)[j]])
    ensures forall i, j :: 0 <= i < j < |DataRows(lines, n)| ==> DataRows(lines, n)[i] < DataRows(lines, n)[j]
  {
    if n > 0 {
      DataRowsSorted(lines, n - 1);
      var prev, rows := DataRows(lines, n - 1), DataRows(lines, n);
      if n - 1 >= 1 && !IsBlank(lines[n - 1]) {
        assert rows == prev + [n - 1];
        forall j | 0 <= j < |rows| ensures 1 <= rows[j] < n && !IsBlank(lines[rows[j]]) {
          if j < |prev| {
            assert rows[j] == prev[j];
          }
        }
        forall i, j | 0 <= i < j < |rows| ensures rows[i] < rows[j] {
          assert rows[i] == prev[i];
          if j < |prev| {
            assert rows[j] == prev[j];
          }
        }
      } else {
        assert rows == prev;
      }
    }
  }

  /** Every non-header, non-blank line is a data row. */
  lemma {:induction false} DataRowsComplete(lines: seq<string>, n: nat)
    requires n <= |lines|
    ensures forall k :: 1 <= k < n && !IsBlank(lines[k]) ==> k in DataRows(lines, n)
  {
    if n > 0 {
      DataRowsComplete(lines, n - 1);
      var prev, rows := DataRows(lines, n - 1), DataRows(lines, n);
      if n - 1 >= 1 && !IsBlank(lines[n - 1]) {
        assert rows == prev + [n - 1];
        assert rows[|prev|] == n - 1;
      }
    }
  }

  /** The indices, among the first `n` row results, of the rows that yielded a pair. */
  function PairRows(rs: seq<RowResult>, n: nat): seq<nat>
    requires n <= |rs|
  {
    if n == 0 then []
    else if rs[n - 1].Success? && rs[n - 1].value.Some? then PairRows(rs, n - 1) + [n - 1]
    else PairRows(rs, n - 1)
  }

  /** A successful outcome holds the yielded pairs, one per yielding row, in row order. */
  lemma {:induction false} CollectPairs(rs: seq<RowResult>, n: nat)
    requires n <= |rs| && Collect(rs, n).Success?
    ensures |Collect(rs, n).value| == |PairRows(rs, n)|
    ensures forall j :: 0 <= j < |PairRows(rs, n)| ==>
              PairRows(rs, n)[j] < n && rs[PairRows(rs, n)[j]] == Success(Some(Collect(rs, n).value[j]))
  {
    if n > 0 {
      CollectPairs(rs, n - 1);
    }
  }

  /** Row results that yield a pair exactly at the data rows have the data rows as their pair rows. */
  lemma {:induction false} PairRowsMatch(rs: seq<RowResult>, lines: seq<string>, n: nat)
    requires n <= |rs| && n <= |lines|
    requires forall k :: 0 <= k < n ==> (rs[k].Success? && rs[k].value.Some? <==> k >= 1 && !IsBlank(lines[k]))
    ensures PairRows(rs, n) == DataRows(lines, n)
  {
    if n > 0 {
      PairRowsMatch(rs, lines, n - 1);
      var data := n - 1 >= 1 && !IsBlank(lines[n - 1]);
      assert rs[n - 1].Success? && rs[n - 1].value.Some? <==> data;
      if data {
        assert PairRows(rs, n) == PairRows(rs, n - 1) + [n - 1];
        assert DataRows(lines, n) == DataRows(lines, n - 1) + [n - 1];
      } else {
        assert PairRows(rs, n) == PairRows(rs, n - 1);
        assert DataRows(lines, n) == DataRows(lines, n - 1);
      }
    }
  }

  /** When no row fails, the rows that yield a pair are exactly the data rows. */
  lemma PairRowsAreDataRows(lines: seq<string>, n: nat)
    requires n <= |lines| && ParsePrefix(lines, n).Success?
    ensures PairRows(RowResults(lines), n) == DataRows(lines, n)
  {
    var rs := RowResults(lines);
    CollectSuccess(rs, n);
    forall k | 0 <= k < n ensures rs[k].Success? && rs[k].value.Some? <==> k >= 1 && !IsBlank(lines[k]) {
      YieldsPairIff(k, lines[k]);
    }
    PairRowsMatch(rs, lines, n);
  }

  /** A row that does not fail yields a pair exactly when it is a data row. */
  lemma YieldsPairIff(idx: nat, line: string)
    requires ParseRow(idx, line).Success?
    ensures ParseRow(idx, line).value.Some? <==> idx > 0 && !IsBlank(line)
  {
  }

  /** A successful load holds one pair per data row, in the order of the rows. */
  lemma PairsFollowRows(lines: seq<string>, n: nat)
    requires n <= |lines| && ParsePrefix(lines, n).Success?
    ensures |ParsePrefix(lines, n).value| == |DataRows(lines, n)|
    ensures forall j :: 0 <= j < |DataRows(lines, n)| ==>
              && DataRows(lines, n)[j] < n
              && ParseRow(DataRows(lines, n)[j], lines[DataRows(lines, n)[j]]) == Success(Some(ParsePrefix(lines, n).value[j]))
  {
    var rs := RowResults(lines);
    CollectPairs(rs, n);
    PairRowsAreDataRows(lines, n);
  }
}
