/**
 * Input parsing of apps/calculator/utils/data_parser.py: comma-separated
 * manual input, CSV rows with an optional header, and the per-method check.
 * Python's `float()` on a string is the parameter `toFloat` (None where it
 * raises ValueError); the CSV file arrives as the rows `csv.reader` yields.
 */
module DataParser {
  import opened Wrappers
  import opened Text

  // ---------------------------------------------------------------------------
  // str.strip() and str.split(',')

  /** The whitespace characters str.strip() removes that this model covers. */
  predicate IsSpace(c: char)
  {
    c == ' ' || c == '\t' || c == '\n' || c == '\r' || c == '\U{000B}' || c == '\U{000C}'
  }

  predicate AllSpace(s: string)
  {
    forall i :: 0 <= i < |s| ==> IsSpace(s[i])
  }

  /** Neither end of t is whitespace. */
  predicate Stripped(t: string)
  {
    |t| == 0 || (!IsSpace(t[0]) && !IsSpace(t[|t| - 1]))
  }

  /** s without its leading whitespace. */
  function TrimStart(s: string): string
    decreases |s|
  {
    if |s| > 0 && IsSpace(s[0]) then TrimStart(s[1..]) else s
  }

  /** s without its trailing whitespace. */
  function TrimEnd(s: string): string
    decreases |s|
  {
    if |s| > 0 && IsSpace(s[|s| - 1]) then TrimEnd(s[..|s| - 1]) else s
  }

  /** `s.strip()`. */
  function Strip(s: string): string
  {
    TrimEnd(TrimStart(s))
  }

  /** TrimStart drops a whitespace prefix and stops at the first other character. */
  lemma {:induction false} TrimStartShape(s: string)
    ensures |TrimStart(s)| <= |s| && TrimStart(s) == s[|s| - |TrimStart(s)|..]
    ensures AllSpace(s[..|s| - |TrimStart(s)|])
    ensures |TrimStart(s)| > 0 ==> !IsSpace(TrimStart(s)[0])
    decreases |s|
  {
    if |s| > 0 && IsSpace(s[0]) {
      TrimStartShape(s[1..]);
      var r := TrimStart(s[1..]);
      assert s[..|s| - |r|] == [s[0]] + s[1..][..|s| - 1 - |r|];
    }
  }

  /** TrimEnd drops a whitespace suffix and stops at the last other character. */
  lemma {:induction false} TrimEndShape(s: string)
    ensures |TrimEnd(s)| <= |s| && TrimEnd(s) == s[..|TrimEnd(s)|]
    ensures AllSpace(s[|TrimEnd(s)|..])
    ensures |TrimEnd(s)| > 0 ==> !IsSpace(TrimEnd(s)[|TrimEnd(s)| - 1])
    decreases |s|
  {
    if |s| > 0 && IsSpace(s[|s| - 1]) {
      TrimEndShape(s[..|s| - 1]);
      var r := TrimEnd(s[..|s| - 1]);
      assert s[|r|..] == s[..|s| - 1][|r|..] + [s[|s| - 1]];
    }
  }

  /**
   * strip(s) is s with a whitespace prefix and a whitespace suffix removed,
   * and neither of its own ends is whitespace.
   */
  lemma StripShape(s: string)
    ensures Stripped(Strip(s))
    ensures |TrimStart(s)| <= |s|
    ensures var k := |s| - |TrimStart(s)|;
      k + |Strip(s)| <= |s| && Strip(s) == s[k..k + |Strip(s)|] &&
      AllSpace(s[..k]) && AllSpace(s[k + |Strip(s)|..])
  {
    var t := TrimStart(s);
    TrimStartShape(s);
    TrimEndShape(t);
    var k := |s| - |t|;
    var m := |Strip(s)|;
    assert t[m..] == s[k + m..];
    if m > 0 {
      assert Strip(s)[0] == t[0];
    }
  }

  lemma {:induction false} TrimStartPadded(lead: string, t: string)
    requires AllSpace(lead) && (|t| == 0 || !IsSpace(t[0]))
    ensures TrimStart(lead + t) == t
    decreases |lead|
  {
    if |lead| > 0 {
      assert (lead + t)[1..] == lead[1..] + t;
      TrimStartPadded(lead[1..], t);
    } else {
      assert lead + t == t;
    }
  }

  lemma {:induction false} TrimEndPadded(t: string, trail: string)
    requires AllSpace(trail) && (|t| == 0 || !IsSpace(t[|t| - 1]))
    ensures TrimEnd(t + trail) == t
    decreases |trail|
  {
    if |trail| > 0 {
      var init := trail[..|trail| - 1];
      assert (t + trail)[..|t + trail| - 1] == t + init;
      TrimEndPadded(t, init);
    }
  }

  /** Strip undoes whitespace padding: strip(lead + t + trail) is t for a stripped t. */
  lemma StripPadded(lead: string, t: string, trail: string)
    requires AllSpace(lead) && AllSpace(trail) && Stripped(t)
    ensures Strip(lead + t + trail) == t
  {
    if |t| == 0 {
      assert lead + t + trail == lead + trail;
      assert AllSpace(lead + trail);
      AllSpaceTrimsToEmpty(lead + trail);
    } else {
      assert lead + t + trail == lead + (t + trail);
      TrimStartPadded(lead, t + trail);
      TrimEndPadded(t, trail);
    }
  }

  lemma AllSpaceTrimsToEmpty(s: string)
    requires AllSpace(s)
    ensures TrimStart(s) == ""
  {
    TrimStartShape(s);
  }

  /** `s.split(sep)`: the maximal sep-free pieces, in order; always at least one. */
  function Split(s: string, sep: char): (parts: seq<string>)
    ensures |parts| >= 1
    decreases |s|
  {
    if |s| == 0 then [""]
    else
      var init := Split(s[..|s| - 1], sep);
      if s[|s| - 1] == sep then init + [""]
      else init[..|init| - 1] + [init[|init| - 1] + [s[|s| - 1]]]
  }

  /** No piece holds the separator. */
  lemma {:induction false} SplitPiecesSepFree(s: string, sep: char)
    ensures forall i :: 0 <= i < |Split(s, sep)| ==> sep !in Split(s, sep)[i]
    decreases |s|
  {
    if |s| > 0 {
      SplitPiecesSepFree(s[..|s| - 1], sep);
      var init := Split(s[..|s| - 1], sep);
      if s[|s| - 1] != sep {
        var parts := Split(s, sep);
        forall i | 0 <= i < |parts| ensures sep !in parts[i] {
          if i < |parts| - 1 {
            assert parts[i] == init[i];
          } else {
            assert parts[i] == init[|init| - 1] + [s[|s| - 1]];
          }
        }
      }
    }
  }

  /** `sep.join(parts)`. */
  function Join(parts: seq<string>, sep: char): string
    requires |parts| >= 1
    decreases |parts|
  {
    if |parts| == 1 then parts[0] else Join(parts[..|parts| - 1], sep) + [sep] + parts[|parts| - 1]
  }

  /** Extending the last piece extends the joined string. */
  lemma JoinExtendLast(front: seq<string>, last: string, c: char, sep: char)
    ensures Join(front + [last + [c]], sep) == Join(front + [last], sep) + [c]
  {
    var a := front + [last + [c]];
    var b := front + [last];
    if |front| > 0 {
      assert a[..|a| - 1] == front && b[..|b| - 1] == front;
    }
  }

  /** Extending the last of the pieces extends the joined string. */
  lemma JoinExtendLastOf(parts: seq<string>, c: char, sep: char)
    requires |parts| >= 1
    ensures Join(parts[..|parts| - 1] + [parts[|parts| - 1] + [c]], sep) == Join(parts, sep) + [c]
  {
    var front := parts[..|parts| - 1];
    assert parts == front + [parts[|parts| - 1]];
    JoinExtendLast(front, parts[|parts| - 1], c, sep);
  }

  /** A separator ends the current piece: the join gains the separator and an empty piece. */
  lemma JoinSplitSep(s: string, sep: char)
    requires |s| > 0 && s[|s| - 1] == sep
    requires Join(Split(s[..|s| - 1], sep), sep) == s[..|s| - 1]
    ensures Join(Split(s, sep), sep) == s
  {
    var init := Split(s[..|s| - 1], sep);
    var parts := init + [""];
    assert Split(s, sep) == parts;
    assert parts[..|parts| - 1] == init;
    assert Join(parts, sep) == Join(init, sep) + [sep] + "";
    assert s == s[..|s| - 1] + [sep];
  }

  /** A non-empty sequence is its front followed by its last element. */
  lemma FrontAndLast<T>(s: seq<T>)
    requires |s| > 0
    ensures s[..|s| - 1] + [s[|s| - 1]] == s
  {
  }

  /** Any other character is appended to the last piece. */
  lemma SplitOther(s: string, sep: char)
    requires |s| > 0 && s[|s| - 1] != sep
    ensures var init := Split(s[..|s| - 1], sep);
      Split(s, sep) == init[..|init| - 1] + [init[|init| - 1] + [s[|s| - 1]]]
  {
  }

  /** Any other character extends the last piece, and so the join. */
  lemma JoinSplitOther(s: string, sep: char)
    requires |s| > 0 && s[|s| - 1] != sep
    requires Join(Split(s[..|s| - 1], sep), sep) == s[..|s| - 1]
    ensures Join(Split(s, sep), sep) == s
  {
    SplitOther(s, sep);
    JoinExtendLastOf(Split(s[..|s| - 1], sep), s[|s| - 1], sep);
    FrontAndLast(s);
  }

  /** Joining the pieces back with the separator gives the original string. */
  lemma {:induction false} JoinSplit(s: string, sep: char)
    ensures Join(Split(s, sep), sep) == s
    decreases |s|
  {
    if |s| > 0 {
      JoinSplit(s[..|s| - 1], sep);
      if s[|s| - 1] == sep {
        JoinSplitSep(s, sep);
      } else {
        JoinSplitOther(s, sep);
      }
    }
  }


  /** A sep-free string is a single piece. */
  lemma {:induction false} SplitWithoutSep(b: string, sep: char)
    requires sep !in b
    ensures Split(b, sep) == [b]
    decreases |b|
  {
    if |b| > 0 {
      SplitWithoutSep(b[..|b| - 1], sep);
      assert b[..|b| - 1] + [b[|b| - 1]] == b;
    }
  }

  /** Appending a separator and a sep-free piece appends that piece. */
  lemma {:induction false} SplitAppend(a: string, sep: char, b: string)
    requires sep !in b
    ensures Split(a + [sep] + b, sep) == Split(a, sep) + [b]
    decreases |b|
  {
    if |b| == 0 {
      assert a + [sep] + b == a + [sep];
      assert (a + [sep])[..|a + [sep]| - 1] == a;
    } else {
      var init := b[..|b| - 1];
      SplitAppend(a, sep, init);
      var s := a + [sep] + b;
      assert s[..|s| - 1] == a + [sep] + init;
      assert init + [b[|b| - 1]] == b;
    }
  }

  /** Splitting sep-free pieces joined with sep recovers the pieces. */
  lemma {:induction false} SplitJoin(parts: seq<string>, sep: char)
    requires |parts| >= 1
    requires forall i :: 0 <= i < |parts| ==> sep !in parts[i]
    ensures Split(Join(parts, sep), sep) == parts
    decreases |parts|
  {
    if |parts| == 1 {
      SplitWithoutSep(parts[0], sep);
    } else {
      var init := parts[..|parts| - 1];
      var last := parts[|parts| - 1];
      SplitJoin(init, sep);
      assert sep !in last;
      assert Join(parts, sep) == Join(init, sep) + [sep] + last;
      SplitAppend(Join(init, sep), sep, last);
      FrontAndLast(parts);
    }
  }

  // ---------------------------------------------------------------------------
  // Manual input

  /** The stripped pieces that are not blank, in order. */
  function NonBlank(parts: seq<string>): (ts: seq<string>)
    ensures |ts| <= |parts|
    ensures forall i :: 0 <= i < |ts| ==> ts[i] != "" && Stripped(ts[i])
    decreases |parts|
  {
    if |parts| == 0 then []
    else
      var t := Strip(parts[|parts| - 1]);
      StripShape(parts[|parts| - 1]);
      NonBlank(parts[..|parts| - 1]) + (if t != "" then [t] else [])
  }

  /** `[t.strip() for t in s.split(',') if t.strip()]`. */
  function Tokens(s: string): seq<string>
  {
    NonBlank(Split(s, ','))
  }

  /** The tokens of comma-free pieces joined with commas are those pieces, stripped, blanks dropped. */
  lemma TokensOfJoin(parts: seq<string>)
    requires |parts| >= 1
    requires forall i :: 0 <= i < |parts| ==> ',' !in parts[i]
    ensures Tokens(Join(parts, ',')) == NonBlank(parts)
  {
    SplitJoin(parts, ',');
  }

  /** The pieces of `", ".join(ts)`: every token after the first gets a leading space. */
  function SpaceLed(ts: seq<string>): (ps: seq<string>)
    requires |ts| >= 1
    ensures |ps| == |ts|
    decreases |ts|
  {
    if |ts| == 1 then ts else SpaceLed(ts[..|ts| - 1]) + [" " + ts[|ts| - 1]]
  }

  /** A token that holds no comma, is not blank and has no surrounding whitespace. */
  predicate PlainToken(t: string)
  {
    t != "" && Stripped(t) && ',' !in t
  }

  lemma {:induction false} NonBlankSpaceLed(ts: seq<string>)
    requires |ts| >= 1
    requires forall i :: 0 <= i < |ts| ==> PlainToken(ts[i])
    ensures NonBlank(SpaceLed(ts)) == ts
    ensures forall i :: 0 <= i < |ts| ==> ',' !in SpaceLed(ts)[i]
    decreases |ts|
  {
    var last := ts[|ts| - 1];
    if |ts| == 1 {
      StripPadded("", last, "");
      assert "" + last + "" == last;
    } else {
      var init := ts[..|ts| - 1];
      NonBlankSpaceLed(init);
      var ps := SpaceLed(ts);
      assert ps[..|ps| - 1] == SpaceLed(init);
      StripPadded(" ", last, "");
      assert " " + last + "" == " " + last;
      assert ts == init + [last];
    }
  }

  /** Manual input written as `", ".join(tokens)` yields exactly those tokens. */
  lemma TokensOfCommaSpaceJoin(ts: seq<string>)
    requires |ts| >= 1
    requires forall i :: 0 <= i < |ts| ==> PlainToken(ts[i])
    ensures Tokens(Join(SpaceLed(ts), ',')) == ts
  {
    NonBlankSpaceLed(ts);
    TokensOfJoin(SpaceLed(ts));
  }

  /** float() applied to every token, or None when any of them is not a number. */
  function ConvertAll(ts: seq<string>, toFloat: string -> Option<real>): (r: Option<seq<real>>)
    ensures r.Some? <==> forall i :: 0 <= i < |ts| ==> toFloat(ts[i]).Some?
    ensures r.Some? ==> |r.value| == |ts| && forall i :: 0 <= i < |ts| ==> r.value[i] == toFloat(ts[i]).value
    decreases |ts|
  {
    if |ts| == 0 then Some([])
    else
      match ConvertAll(ts[..|ts| - 1], toFloat)
      case None => None
      case Some(init) =>
        match toFloat(ts[|ts| - 1])
        case None => None
        case Some(v) => Some(init + [v])
  }

  datatype ManualError = InvalidNumber | CountMismatch | TooFewValues

  function ManualMessage(e: ManualError): string
  {
    match e
    case InvalidNumber => "All values must be valid numbers"
    case CountMismatch => "Number of X and Y values must be equal"
    case TooFewValues => "At least 2 data points are required"
  }

  /** `DataParser.parse_manual_input(x_string, y_string)`. */
  function ParseManualInput(xString: string, yString: string, toFloat: string -> Option<real>): (r: Result<(seq<real>, seq<real>), ManualError>)
    ensures r.Success? ==> |r.value.0| == |r.value.1| >= 2
    ensures r.Failure? && |Tokens(xString)| == |Tokens(yString)| ==> r.error != CountMismatch
  {
    match ConvertAll(Tokens(xString), toFloat)
    case None => Failure(InvalidNumber)
    case Some(xs) =>
      match ConvertAll(Tokens(yString), toFloat)
      case None => Failure(InvalidNumber)
      case Some(ys) =>
        if |xs| != |ys| then Failure(CountMismatch)
        else if |xs| < 2 then Failure(TooFewValues)
        else Success((xs, ys))
  }

  /** Every token of both strings is a number. */
  predicate AllNumbers(xString: string, yString: string, toFloat: string -> Option<real>)
  {
    ConvertAll(Tokens(xString), toFloat).Some? && ConvertAll(Tokens(yString), toFloat).Some?
  }

  /**
   * Manual input fails on any token that is not a number, then on unequal
   * counts, then on fewer than two values.
   */
  lemma ManualInputErrors(xString: string, yString: string, toFloat: string -> Option<real>)
    ensures ParseManualInput(xString, yString, toFloat) == Failure(InvalidNumber) <==> !AllNumbers(xString, yString, toFloat)
    ensures ParseManualInput(xString, yString, toFloat) == Failure(CountMismatch) <==>
      AllNumbers(xString, yString, toFloat) && |Tokens(xString)| != |Tokens(yString)|
    ensures ParseManualInput(xString, yString, toFloat) == Failure(TooFewValues) <==>
      AllNumbers(xString, yString, toFloat) && |Tokens(xString)| == |Tokens(yString)| < 2
    ensures ParseManualInput(xString, yString, toFloat).Success? <==>
      AllNumbers(xString, yString, toFloat) && |Tokens(xString)| == |Tokens(yString)| >= 2
  {
  }

  /** On success the values are the tokens' numbers, in input order. */
  lemma ManualInputValues(xString: string, yString: string, toFloat: string -> Option<real>)
    requires ParseManualInput(xString, yString, toFloat).Success?
    ensures var r := ParseManualInput(xString, yString, toFloat);
      var xt := Tokens(xString); var yt := Tokens(yString);
      |r.value.0| == |r.value.1| == |xt| == |yt| >= 2 &&
      (forall i :: 0 <= i < |xt| ==> toFloat(xt[i]).Some? && r.value.0[i] == toFloat(xt[i]).value) &&
      (forall i :: 0 <= i < |yt| ==> toFloat(yt[i]).Some? && r.value.1[i] == toFloat(yt[i]).value)
  {
  }

  // ---------------------------------------------------------------------------
  // CSV input

  /** A cell as the row loop reads it: blank, a number, or text float() rejects. */
  datatype CellValue = Blank | Number(v: real) | Invalid

  function ReadCell(s: string, toFloat: string -> Option<real>): CellValue
  {
    var t := Strip(s);
    if t == "" then Blank
    else
      match toFloat(t)
      case Some(v) => Number(v)
      case None => Invalid
  }

  datatype CsvError =
    | TooFewRows
    | TooFewDataRows
    | ShortRow(row: nat)
    | InvalidRow(row: nat)
    | TooFewPoints

  const CsvPrefix: string := "Error parsing CSV file: "

  /** Every CSV failure is re-raised with the same prefix. */
  function CsvMessage(e: CsvError): (m: string)
    ensures |m| > |CsvPrefix| && m[..|CsvPrefix|] == CsvPrefix
  {
    CsvPrefix +
    match e
    case TooFewRows => "CSV file must contain at least 2 rows of data"
    case TooFewDataRows => "CSV file must contain at least 2 rows of numerical data"
    case ShortRow(k) => "Row " + NatToString(k) + " must contain at least 2 values"
    case InvalidRow(k) => "Row " + NatToString(k) + " contains invalid numerical data"
    case TooFewPoints => "At least 2 valid data points are required"
  }

  /** The first row is a header iff one of its non-blank cells is not a number. */
  predicate HasHeader(first: seq<string>, toFloat: string -> Option<real>)
  {
    exists i :: 0 <= i < |first| && Strip(first[i]) != "" && toFloat(first[i]).None?
  }

  /** The rows the loop reads: all of them, or all but a header. */
  function DataRows(rows: seq<seq<string>>, toFloat: string -> Option<real>): seq<seq<string>>
    requires |rows| >= 1
  {
    if HasHeader(rows[0], toFloat) then rows[1..] else rows
  }

  /** The 1-based file row of the first data row: 2 after a header, else 1. */
  function FirstRowNumber(rows: seq<seq<string>>, toFloat: string -> Option<real>): nat
    requires |rows| >= 1
  {
    if HasHeader(rows[0], toFloat) then 2 else 1
  }

  /** A row the loop accepts: enough cells, and no cell of the first two that float() rejects. */
  predicate Readable(row: seq<string>, toFloat: string -> Option<real>)
  {
    |row| >= 2 && !ReadCell(row[0], toFloat).Invalid? && !ReadCell(row[1], toFloat).Invalid?
  }

  /** A row the loop keeps: at least two cells, the first two both numbers. */
  predicate Complete(row: seq<string>, toFloat: string -> Option<real>)
  {
    |row| >= 2 && ReadCell(row[0], toFloat).Number? && ReadCell(row[1], toFloat).Number?
  }

  /** The point a complete row contributes. */
  function RowPoint(row: seq<string>, toFloat: string -> Option<real>): (real, real)
    requires Complete(row, toFloat)
  {
    (ReadCell(row[0], toFloat).v, ReadCell(row[1], toFloat).v)
  }

  /** One pass of the row loop: an error, a point, or nothing for a row with a blank cell. */
  function ReadRow(row: seq<string>, number: nat, toFloat: string -> Option<real>): Result<Option<(real, real)>, CsvError>
  {
    if |row| < 2 then Failure(ShortRow(number))
    else if !Readable(row, toFloat) then Failure(InvalidRow(number))
    else if Complete(row, toFloat) then Success(Some(RowPoint(row, toFloat)))
    else Success(None)
  }

  /** The loop's state after one more row: an earlier error stands, else the row's outcome applies. */
  function Extend(acc: Result<seq<(real, real)>, CsvError>, step: Result<Option<(real, real)>, CsvError>): Result<seq<(real, real)>, CsvError>
  {
    match acc
    case Failure(e) => Failure(e)
    case Success(points) =>
      match step
      case Failure(e) => Failure(e)
      case Success(None) => Success(points)
      case Success(Some(p)) => Success(points + [p])
  }

  /** The row loop over rows numbered from first: the points read, or the first row's error. */
  function Scan(rows: seq<seq<string>>, first: nat, toFloat: string -> Option<real>): Result<seq<(real, real)>, CsvError>
    decreases |rows|
  {
    if |rows| == 0 then Success([])
    else Extend(Scan(rows[..|rows| - 1], first, toFloat), ReadRow(rows[|rows| - 1], first + |rows| - 1, toFloat))
  }

  /** One more iteration of the loop extends the scan of the rows before it. */
  lemma ScanStep(rows: seq<seq<string>>, first: nat, toFloat: string -> Option<real>, i: nat)
    requires i < |rows|
    ensures Scan(rows[..i + 1], first, toFloat) == Extend(Scan(rows[..i], first, toFloat), ReadRow(rows[i], first + i, toFloat))
  {
    var pre := rows[..i + 1];
    assert pre[..|pre| - 1] == rows[..i];
    assert pre[|pre| - 1] == rows[i];
  }

  /** The points of the complete rows, in file order. */
  function Kept(rows: seq<seq<string>>, toFloat: string -> Option<real>): seq<(real, real)>
    decreases |rows|
  {
    if |rows| == 0 then []
    else
      var row := rows[|rows| - 1];
      Kept(rows[..|rows| - 1], toFloat) + (if Complete(row, toFloat) then [RowPoint(row, toFloat)] else [])
  }

  /** `(x, y) <= (x', y')` for Python tuples of numbers. */
  predicate PairLe(p: (real, real), q: (real, real))
  {
    p.0 < q.0 || (p.0 == q.0 && p.1 <= q.1)
  }

  predicate SortedPairs(s: seq<(real, real)>)
  {
    forall i, j :: 0 <= i < j < |s| ==> PairLe(s[i], s[j])
  }

  function Insert(p: (real, real), s: seq<(real, real)>): (r: seq<(real, real)>)
    requires SortedPairs(s)
    ensures SortedPairs(r) && multiset(r) == multiset(s) + multiset{p}
    ensures |r| == |s| + 1 && (r[0] == p || (|s| > 0 && r[0] == s[0]))
    decreases |s|
  {
    if |s| == 0 || PairLe(p, s[0]) then [p] + s
    else
      var rest := Insert(p, s[1..]);
      assert s == [s[0]] + s[1..];
      [s[0]] + rest
  }

  /** `sorted(pairs)`: the pairs in ascending (x, y) order. */
  function SortPairs(ps: seq<(real, real)>): (r: seq<(real, real)>)
    ensures SortedPairs(r) && multiset(r) == multiset(ps)
    decreases |ps|
  {
    if |ps| == 0 then []
    else
      assert ps == ps[..|ps| - 1] + [ps[|ps| - 1]];
      Insert(ps[|ps| - 1], SortPairs(ps[..|ps| - 1]))
  }

  /** `zip(xs, ys)`. */
  function Zip(xs: seq<real>, ys: seq<real>): (ps: seq<(real, real)>)
    requires |xs| == |ys|
    ensures |ps| == |xs|
    decreases |xs|
  {
    if |xs| == 0 then [] else Zip(xs[..|xs| - 1], ys[..|ys| - 1]) + [(xs[|xs| - 1], ys[|ys| - 1])]
  }

  function Firsts(ps: seq<(real, real)>): (xs: seq<real>)
    ensures |xs| == |ps|
    decreases |ps|
  {
    if |ps| == 0 then [] else Firsts(ps[..|ps| - 1]) + [ps[|ps| - 1].0]
  }

  function Seconds(ps: seq<(real, real)>): (ys: seq<real>)
    ensures |ys| == |ps|
    decreases |ps|
  {
    if |ps| == 0 then [] else Seconds(ps[..|ps| - 1]) + [ps[|ps| - 1].1]
  }

  lemma {:induction false} SecondsAt(ps: seq<(real, real)>)
    ensures forall i :: 0 <= i < |ps| ==> Seconds(ps)[i] == ps[i].1
    decreases |ps|
  {
    if |ps| > 0 {
      SecondsAt(ps[..|ps| - 1]);
    }
  }

  /** `zip(*pairs)` undoes `zip`: the two columns zip back to the pairs. */
  lemma {:induction false} ZipColumns(ps: seq<(real, real)>)
    ensures Zip(Firsts(ps), Seconds(ps)) == ps
    decreases |ps|
  {
    if |ps| > 0 {
      var init := ps[..|ps| - 1];
      ZipColumns(init);
      assert Firsts(ps)[..|ps| - 1] == Firsts(init);
      assert Seconds(ps)[..|ps| - 1] == Seconds(init);
    }
  }

  lemma {:induction false} FirstsAt(ps: seq<(real, real)>)
    ensures forall i :: 0 <= i < |ps| ==> Firsts(ps)[i] == ps[i].0
    decreases |ps|
  {
    if |ps| > 0 {
      FirstsAt(ps[..|ps| - 1]);
    }
  }

  /** `DataParser.parse_csv_file`, from the rows `csv.reader` yields. */
  function ParseCsvSpec(rows: seq<seq<string>>, toFloat: string -> Option<real>): (r: Result<(seq<real>, seq<real>), CsvError>)
  {
    if |rows| < 2 then Failure(TooFewRows)
    else
      var data := DataRows(rows, toFloat);
      if |data| < 2 then Failure(TooFewDataRows)
      else
        match Scan(data, FirstRowNumber(rows, toFloat), toFloat)
        case Failure(e) => Failure(e)
        case Success(points) =>
          if |points| < 2 then Failure(TooFewPoints)
          else
            var sorted := SortPairs(points);
            Success((Firsts(sorted), Seconds(sorted)))
  }

  /** Once the loop has failed on a row, later rows do not change the outcome. */
  lemma {:induction false} ScanFailurePersists(rows: seq<seq<string>>, first: nat, toFloat: string -> Option<real>, i: nat)
    requires i <= |rows|
    requires Scan(rows[..i], first, toFloat).Failure?
    ensures Scan(rows, first, toFloat) == Scan(rows[..i], first, toFloat)
    decreases |rows| - i
  {
    if i < |rows| {
      var init := rows[..|rows| - 1];
      assert init[..i] == rows[..i];
      ScanFailurePersists(init, first, toFloat, i);
    } else {
      assert rows[..i] == rows;
    }
  }

  /** A failed scan of the data rows is the parser's outcome. */
  lemma CsvFailsWithScan(rows: seq<seq<string>>, toFloat: string -> Option<real>)
    requires |rows| >= 2 && |DataRows(rows, toFloat)| >= 2
    requires Scan(DataRows(rows, toFloat), FirstRowNumber(rows, toFloat), toFloat).Failure?
    ensures ParseCsvSpec(rows, toFloat) == Failure(Scan(DataRows(rows, toFloat), FirstRowNumber(rows, toFloat), toFloat).error)
  {
  }

  /** A successful scan of the data rows is sorted, or rejected when it kept fewer than two points. */
  lemma CsvSortsScan(rows: seq<seq<string>>, toFloat: string -> Option<real>, xs: seq<real>, ys: seq<real>)
    requires |rows| >= 2 && |DataRows(rows, toFloat)| >= 2 && |xs| == |ys|
    requires Scan(DataRows(rows, toFloat), FirstRowNumber(rows, toFloat), toFloat) == Success(Zip(xs, ys))
    ensures |xs| < 2 ==> ParseCsvSpec(rows, toFloat) == Failure(TooFewPoints)
    ensures |xs| >= 2 ==>
      ParseCsvSpec(rows, toFloat) == Success((Firsts(SortPairs(Zip(xs, ys))), Seconds(SortPairs(Zip(xs, ys)))))
  {
  }

  /** Appending a point to both lists appends it to their zip. */
  lemma ZipSnoc(xs: seq<real>, ys: seq<real>, x: real, y: real)
    requires |xs| == |ys|
    ensures Zip(xs + [x], ys + [y]) == Zip(xs, ys) + [(x, y)]
  {
    assert (xs + [x])[..|xs|] == xs && (ys + [y])[..|ys|] == ys;
  }

  /** A too-short row ends the scan with its number. */
  lemma ScanStopsAtShortRow(rows: seq<seq<string>>, first: nat, toFloat: string -> Option<real>, i: nat)
    requires i < |rows| && Scan(rows[..i], first, toFloat).Success? && |rows[i]| < 2
    ensures Scan(rows, first, toFloat) == Failure(ShortRow(first + i))
  {
    ScanStep(rows, first, toFloat, i);
    ScanFailurePersists(rows, first, toFloat, i + 1);
  }

  /** A row with a cell float() rejects ends the scan with its number. */
  lemma ScanStopsAtInvalidRow(rows: seq<seq<string>>, first: nat, toFloat: string -> Option<real>, i: nat)
    requires i < |rows| && Scan(rows[..i], first, toFloat).Success? && |rows[i]| >= 2
    requires ReadCell(rows[i][0], toFloat).Invalid? || ReadCell(rows[i][1], toFloat).Invalid?
    ensures Scan(rows, first, toFloat) == Failure(InvalidRow(first + i))
  {
    ScanStep(rows, first, toFloat, i);
    ScanFailurePersists(rows, first, toFloat, i + 1);
  }

  /** A complete row appends its point to both columns of the scan so far. */
  lemma ScanKeepsRow(rows: seq<seq<string>>, first: nat, toFloat: string -> Option<real>, i: nat,
                     xs: seq<real>, ys: seq<real>)
    requires i < |rows| && |xs| == |ys| && Scan(rows[..i], first, toFloat) == Success(Zip(xs, ys))
    requires |rows[i]| >= 2 && ReadCell(rows[i][0], toFloat).Number? && ReadCell(rows[i][1], toFloat).Number?
    ensures Scan(rows[..i + 1], first, toFloat) ==
      Success(Zip(xs + [ReadCell(rows[i][0], toFloat).v], ys + [ReadCell(rows[i][1], toFloat).v]))
  {
    ScanStep(rows, first, toFloat, i);
    ZipSnoc(xs, ys, ReadCell(rows[i][0], toFloat).v, ReadCell(rows[i][1], toFloat).v);
  }

  /** A readable row with a blank cell leaves the scan as it was. */
  lemma ScanSkipsRow(rows: seq<seq<string>>, first: nat, toFloat: string -> Option<real>, i: nat)
    requires i < |rows| && Scan(rows[..i], first, toFloat).Success? && Readable(rows[i], toFloat)
    requires !(ReadCell(rows[i][0], toFloat).Number? && ReadCell(rows[i][1], toFloat).Number?)
    ensures Scan(rows[..i + 1], first, toFloat) == Scan(rows[..i], first, toFloat)
  {
    ScanStep(rows, first, toFloat, i);
  }

  /** The row loop, appending to the two value lists as the source does; rows are numbered from first. */
  method ReadDataRows(dataRows: seq<seq<string>>, first: nat, toFloat: string -> Option<real>)
    returns (r: Result<(seq<real>, seq<real>), CsvError>)
    ensures Scan(dataRows, first, toFloat).Failure? ==> r == Failure(Scan(dataRows, first, toFloat).error)
    ensures Scan(dataRows, first, toFloat).Success? ==>
      r.Success? && |r.value.0| == |r.value.1| && Scan(dataRows, first, toFloat).value == Zip(r.value.0, r.value.1)
  {
    var xValues: seq<real> := [];
    var yValues: seq<real> := [];
    var i := 0;
    while i < |dataRows|
      invariant 0 <= i <= |dataRows|
      invariant |xValues| == |yValues|
      invariant Scan(dataRows[..i], first, toFloat) == Success(Zip(xValues, yValues))
    {
      var row := dataRows[i];
      var number := i + first;
      if |row| < 2 {
        ScanStopsAtShortRow(dataRows, first, toFloat, i);
        return Failure(ShortRow(number));
      }
      var x := ReadCell(row[0], toFloat);
      var y := ReadCell(row[1], toFloat);
      if x.Invalid? || y.Invalid? {
        ScanStopsAtInvalidRow(dataRows, first, toFloat, i);
        return Failure(InvalidRow(number));
      }
      if x.Number? && y.Number? {
        ScanKeepsRow(dataRows, first, toFloat, i, xValues, yValues);
        xValues := xValues + [x.v];
        yValues := yValues + [y.v];
      } else {
        ScanSkipsRow(dataRows, first, toFloat, i);
      }
      i := i + 1;
    }
    assert dataRows[..i] == dataRows;
    r := Success((xValues, yValues));
  }

  /** `DataParser.parse_csv_file`: header detection, the row loop, then the sort by (x, y). */
  method ParseCsvFile(rows: seq<seq<string>>, toFloat: string -> Option<real>) returns (r: Result<(seq<real>, seq<real>), CsvError>)
    ensures r == ParseCsvSpec(rows, toFloat)
  {
    if |rows| < 2 {
      return Failure(TooFewRows);
    }
    var hasHeader := HasHeader(rows[0], toFloat);
    var dataRows := if hasHeader then rows[1..] else rows;
    var first: nat := if hasHeader then 2 else 1;
    assert dataRows == DataRows(rows, toFloat) && first == FirstRowNumber(rows, toFloat);
    if |dataRows| < 2 {
      return Failure(TooFewDataRows);
    }
    var read := ReadDataRows(dataRows, first, toFloat);
    if read.Failure? {
      CsvFailsWithScan(rows, toFloat);
      return Failure(read.error);
    }
    var xValues := read.value.0;
    var yValues := read.value.1;
    CsvSortsScan(rows, toFloat, xValues, yValues);
    if |xValues| < 2 {
      return Failure(TooFewPoints);
    }
    var sorted := SortPairs(Zip(xValues, yValues));
    r := Success((Firsts(sorted), Seconds(sorted)));
  }

  // ---------------------------------------------------------------------------
  // Properties of the CSV parser

  /** Columns past the second never matter. */
  lemma ExtraColumnsIgnored(row: seq<string>, extra: seq<string>, number: nat, toFloat: string -> Option<real>)
    requires |row| >= 2
    ensures ReadRow(row + extra, number, toFloat) == ReadRow(row, number, toFloat)
  {
    assert (row + extra)[0] == row[0] && (row + extra)[1] == row[1];
  }

  /** A failed scan names the first unreadable row, numbered from first. */
  lemma {:induction false} ScanFailureAt(rows: seq<seq<string>>, first: nat, toFloat: string -> Option<real>) returns (j: nat)
    requires Scan(rows, first, toFloat).Failure?
    ensures j < |rows| && !Readable(rows[j], toFloat)
    ensures forall t :: 0 <= t < j ==> Readable(rows[t], toFloat)
    ensures ReadRow(rows[j], first + j, toFloat) == Failure(Scan(rows, first, toFloat).error)
    decreases |rows|
  {
    var init := rows[..|rows| - 1];
    if Scan(init, first, toFloat).Failure? {
      j := ScanFailureAt(init, first, toFloat);
    } else {
      j := |rows| - 1;
      ScanSucceedsOnReadable(init, first, toFloat);
    }
  }

  /** The scan succeeds exactly when every row is readable, and then keeps the complete rows' points. */
  lemma {:induction false} ScanSucceedsOnReadable(rows: seq<seq<string>>, first: nat, toFloat: string -> Option<real>)
    ensures Scan(rows, first, toFloat).Success? <==> forall t :: 0 <= t < |rows| ==> Readable(rows[t], toFloat)
    ensures Scan(rows, first, toFloat).Success? ==> Scan(rows, first, toFloat).value == Kept(rows, toFloat)
    decreases |rows|
  {
    if |rows| > 0 {
      var init := rows[..|rows| - 1];
      ScanSucceedsOnReadable(init, first, toFloat);
      assert forall t :: 0 <= t < |init| ==> init[t] == rows[t];
    }
  }

  /** What a row's error says about the row. */
  lemma RowErrorFacts(row: seq<string>, number: nat, toFloat: string -> Option<real>, e: CsvError)
    requires ReadRow(row, number, toFloat) == Failure(e)
    ensures (e.ShortRow? || e.InvalidRow?) && e.row == number
    ensures e.ShortRow? <==> |row| < 2
    ensures e.InvalidRow? ==> ReadCell(row[0], toFloat).Invalid? || ReadCell(row[1], toFloat).Invalid?
  {
  }

  /** Readable rows of a suffix are readable rows of the whole, shifted by where the suffix starts. */
  lemma ReadableFrom(rows: seq<seq<string>>, d: nat, j: nat, toFloat: string -> Option<real>)
    requires d + j <= |rows|
    requires forall t :: 0 <= t < j ==> Readable(rows[d..][t], toFloat)
    ensures forall t :: d <= t < d + j ==> Readable(rows[t], toFloat)
  {
    forall t | d <= t < d + j
      ensures Readable(rows[t], toFloat)
    {
      assert rows[t] == rows[d..][t - d];
    }
  }

  /** A row error comes from the scan of the data rows, which are the rows from the first data row on. */
  lemma CsvRowErrorFromScan(rows: seq<seq<string>>, toFloat: string -> Option<real>)
    requires ParseCsvSpec(rows, toFloat).Failure?
    requires ParseCsvSpec(rows, toFloat).error.ShortRow? || ParseCsvSpec(rows, toFloat).error.InvalidRow?
    ensures |rows| >= 2 && |DataRows(rows, toFloat)| >= 2
    ensures Scan(DataRows(rows, toFloat), FirstRowNumber(rows, toFloat), toFloat) == Failure(ParseCsvSpec(rows, toFloat).error)
  {
  }

  /**
   * A row error names the 1-based row of the file it comes from (after the
   * header, if any): that row is too short or holds a cell float() rejects,
   * and every data row before it was readable.
   */
  lemma CsvRowErrorLocation(rows: seq<seq<string>>, toFloat: string -> Option<real>)
    requires ParseCsvSpec(rows, toFloat).Failure?
    requires ParseCsvSpec(rows, toFloat).error.ShortRow? || ParseCsvSpec(rows, toFloat).error.InvalidRow?
    ensures var e := ParseCsvSpec(rows, toFloat).error; var k := e.row;
      FirstRowNumber(rows, toFloat) <= k <= |rows| &&
      (e.ShortRow? <==> |rows[k - 1]| < 2) &&
      (e.InvalidRow? ==>
        ReadCell(rows[k - 1][0], toFloat).Invalid? || ReadCell(rows[k - 1][1], toFloat).Invalid?) &&
      forall t :: FirstRowNumber(rows, toFloat) - 1 <= t < k - 1 ==> Readable(rows[t], toFloat)
  {
    var e := ParseCsvSpec(rows, toFloat).error;
    CsvRowErrorFromScan(rows, toFloat);
    var data := DataRows(rows, toFloat);
    var first := FirstRowNumber(rows, toFloat);
    var j := ScanFailureAt(data, first, toFloat);
    RowErrorFacts(data[j], first + j, toFloat, e);
    if HasHeader(rows[0], toFloat) {
      assert data == rows[1..];
      ReadableFrom(rows, 1, j, toFloat);
      assert data[j] == rows[1 + j];
    } else {
      assert data == rows;
    }
  }

  /**
   * The CSV parser succeeds exactly when there are two rows and two data rows,
   * every data row is readable and at least two were complete.
   */
  lemma CsvSuccessCondition(rows: seq<seq<string>>, toFloat: string -> Option<real>)
    ensures ParseCsvSpec(rows, toFloat).Success? <==>
      |rows| >= 2 && |DataRows(rows, toFloat)| >= 2 &&
      (forall t :: 0 <= t < |DataRows(rows, toFloat)| ==> Readable(DataRows(rows, toFloat)[t], toFloat)) &&
      |Kept(DataRows(rows, toFloat), toFloat)| >= 2
  {
    if |rows| >= 2 && |DataRows(rows, toFloat)| >= 2 {
      ScanSucceedsOnReadable(DataRows(rows, toFloat), FirstRowNumber(rows, toFloat), toFloat);
    }
  }

  /** The columns of sorted pairs zip back to them, and the first column never decreases. */
  lemma SortedColumns(ps: seq<(real, real)>)
    requires SortedPairs(ps)
    ensures Zip(Firsts(ps), Seconds(ps)) == ps
    ensures forall i :: 0 <= i < |ps| - 1 ==> Firsts(ps)[i] <= Firsts(ps)[i + 1]
  {
    ZipColumns(ps);
    FirstsAt(ps);
    forall i | 0 <= i < |ps| - 1
      ensures Firsts(ps)[i] <= Firsts(ps)[i + 1]
    {
      assert PairLe(ps[i], ps[i + 1]);
    }
  }

  /** On success the result is the sorted columns of the complete rows' points. */
  lemma CsvSuccessValue(rows: seq<seq<string>>, toFloat: string -> Option<real>)
    requires ParseCsvSpec(rows, toFloat).Success?
    ensures var sorted := SortPairs(Kept(DataRows(rows, toFloat), toFloat));
      |sorted| >= 2 && ParseCsvSpec(rows, toFloat).value == (Firsts(sorted), Seconds(sorted))
  {
    ScanSucceedsOnReadable(DataRows(rows, toFloat), FirstRowNumber(rows, toFloat), toFloat);
    var kept := Kept(DataRows(rows, toFloat), toFloat);
    assert |SortPairs(kept)| == |multiset(SortPairs(kept))| == |multiset(kept)| == |kept|;
  }

  /**
   * On success x and y have the same length, at least 2; the (x, y) pairs
   * rise in tuple order (so x never decreases) and are exactly the complete
   * rows' points, rearranged.
   */
  lemma CsvSuccessShape(rows: seq<seq<string>>, toFloat: string -> Option<real>)
    requires ParseCsvSpec(rows, toFloat).Success?
    ensures var xs := ParseCsvSpec(rows, toFloat).value.0; var ys := ParseCsvSpec(rows, toFloat).value.1;
      |xs| == |ys| >= 2 &&
      SortedPairs(Zip(xs, ys)) &&
      (forall i :: 0 <= i < |xs| - 1 ==> xs[i] <= xs[i + 1]) &&
      multiset(Zip(xs, ys)) == multiset(Kept(DataRows(rows, toFloat), toFloat))
  {
    CsvSuccessValue(rows, toFloat);
    SortedColumns(SortPairs(Kept(DataRows(rows, toFloat), toFloat)));
  }

  /** Python's sorted leaves input that is already in order unchanged. */
  lemma {:induction false} InsertAfterAll(p: (real, real), s: seq<(real, real)>)
    requires SortedPairs(s)
    requires forall i :: 0 <= i < |s| ==> PairLe(s[i], p)
    ensures Insert(p, s) == s + [p]
    decreases |s|
  {
    if |s| > 0 && !PairLe(p, s[0]) {
      InsertAfterAll(p, s[1..]);
      assert s == [s[0]] + s[1..];
    } else if |s| > 0 {
      assert s[0].0 == p.0 && s[0].1 == p.1;
      assert s + [p] == [p] + s by {
        forall i | 0 <= i < |s|
          ensures s[i] == p
        {
          assert PairLe(s[0], s[i]);
        }
      }
    }
  }

  lemma {:induction false} SortSorted(ps: seq<(real, real)>)
    requires SortedPairs(ps)
    ensures SortPairs(ps) == ps
    decreases |ps|
  {
    if |ps| > 0 {
      var init := ps[..|ps| - 1];
      SortSorted(init);
      InsertAfterAll(ps[|ps| - 1], init);
      assert init + [ps[|ps| - 1]] == ps;
    }
  }

  /** `validate_data_for_method`: every method accepts every data set. */
  function ValidateDataForMethod(xs: seq<real>, ys: seq<real>, methodId: string): (errors: map<string, string>)
    ensures |errors| == 0
  {
    map[]
  }

  // ---------------------------------------------------------------------------
  // The examples of apps/calculator/tests.py

  /** Appending the separator and then the space-led token appends ", " and the token. */
  lemma CommaThenSpaced(front: string, t: string)
    ensures front + [','] + (" " + t) == front + ", " + t
  {
  }

  /** One more token adds ", " and the token to the joined input. */
  lemma CommaSpaceSnoc(ts: seq<string>, t: string)
    requires |ts| >= 1
    ensures Join(SpaceLed(ts + [t]), ',') == Join(SpaceLed(ts), ',') + ", " + t
  {
    var us := ts + [t];
    assert us[..|us| - 1] == ts && us[|us| - 1] == t;
    var ps := SpaceLed(us);
    assert ps == SpaceLed(ts) + [" " + t];
    assert ps[..|ps| - 1] == SpaceLed(ts) && ps[|ps| - 1] == " " + t;
    var front := Join(SpaceLed(ts), ',');
    assert Join(ps, ',') == front + [','] + (" " + t);
    CommaThenSpaced(front, t);
  }

  /** A row of two plain numerals is complete and contributes their values. */
  lemma NumeralRow(a: string, b: string, x: real, y: real, toFloat: string -> Option<real>)
    requires a != "" && Stripped(a) && b != "" && Stripped(b)
    requires toFloat(a) == Some(x) && toFloat(b) == Some(y)
    ensures Readable([a, b], toFloat) && Complete([a, b], toFloat) && RowPoint([a, b], toFloat) == (x, y)
  {
    StripPadded("", a, "");
    StripPadded("", b, "");
    assert "" + a + "" == a && "" + b + "" == b;
  }

  /** When every row is complete, Kept returns their points in order. */
  lemma {:induction false} KeptAllComplete(rows: seq<seq<string>>, points: seq<(real, real)>, toFloat: string -> Option<real>)
    requires |rows| == |points|
    requires forall t :: 0 <= t < |rows| ==> Complete(rows[t], toFloat) && RowPoint(rows[t], toFloat) == points[t]
    ensures Kept(rows, toFloat) == points
    decreases |rows|
  {
    if |rows| > 0 {
      var n := |rows| - 1;
      KeptAllComplete(rows[..n], points[..n], toFloat);
      assert points == points[..n] + [points[n]];
    }
  }

  /** A conversion that reads the numerals of the examples as float() does. */
  predicate ReadsExampleNumerals(toFloat: string -> Option<real>)
  {
    toFloat("0") == Some(0.0) && toFloat("1") == Some(1.0) && toFloat("2") == Some(2.0) &&
    toFloat("3") == Some(3.0) && toFloat("4") == Some(4.0) && toFloat("9") == Some(9.0) &&
    toFloat("16") == Some(16.0) && toFloat("25") == Some(25.0)
  }

  /** Five tokens joined as the manual form writes them: ", " between neighbours. */
  lemma FiveTokensText(a: string, b: string, c: string, d: string, e: string)
    ensures Join(SpaceLed([a, b, c, d, e]), ',') == a + ", " + b + ", " + c + ", " + d + ", " + e
  {
    CommaSpaceSnoc([a], b);
    assert [a] + [b] == [a, b];
    CommaSpaceSnoc([a, b], c);
    assert [a, b] + [c] == [a, b, c];
    CommaSpaceSnoc([a, b, c], d);
    assert [a, b, c] + [d] == [a, b, c, d];
    CommaSpaceSnoc([a, b, c, d], e);
    assert [a, b, c, d] + [e] == [a, b, c, d, e];
  }

  /** Five plain tokens written with ", " between them split back into those tokens. */
  lemma FiveTokens(a: string, b: string, c: string, d: string, e: string)
    requires PlainToken(a) && PlainToken(b) && PlainToken(c) && PlainToken(d) && PlainToken(e)
    ensures Tokens(a + ", " + b + ", " + c + ", " + d + ", " + e) == [a, b, c, d, e]
  {
    FiveTokensText(a, b, c, d, e);
    TokensOfCommaSpaceJoin([a, b, c, d, e]);
  }

  /** The example texts split into their numerals. */
  lemma ExampleTokens()
    ensures Tokens("0, 1, 2, 3, 4") == ["0", "1", "2", "3", "4"]
    ensures Tokens("1, 4, 9, 16, 25") == ["1", "4", "9", "16", "25"]
  {
    FiveTokens("0", "1", "2", "3", "4");
    assert "0" + ", " + "1" == "0, 1";
    assert "0, 1" + ", " + "2" == "0, 1, 2";
    assert "0, 1, 2" + ", " + "3" == "0, 1, 2, 3";
    assert "0, 1, 2, 3" + ", " + "4" == "0, 1, 2, 3, 4";
    FiveTokens("1", "4", "9", "16", "25");
    assert "1" + ", " + "4" == "1, 4";
    assert "1, 4" + ", " + "9" == "1, 4, 9";
    assert "1, 4, 9" + ", " + "16" == "1, 4, 9, 16";
    assert "1, 4, 9, 16" + ", " + "25" == "1, 4, 9, 16, 25";
  }

  /** Tokens that each convert give exactly their values. */
  lemma ConvertsTo(ts: seq<string>, vs: seq<real>, toFloat: string -> Option<real>)
    requires |ts| == |vs|
    requires forall i :: 0 <= i < |ts| ==> toFloat(ts[i]) == Some(vs[i])
    ensures ConvertAll(ts, toFloat) == Some(vs)
  {
    var r := ConvertAll(ts, toFloat);
    assert r.Some?;
    assert |r.value| == |vs| && forall i :: 0 <= i < |vs| ==> r.value[i] == vs[i];
    assert r.value == vs;
  }

  /** "0, 1, 2, 3, 4" and "1, 4, 9, 16, 25" parse to the five points, in order. */
  lemma ManualInputExample(toFloat: string -> Option<real>)
    requires ReadsExampleNumerals(toFloat)
    ensures ParseManualInput("0, 1, 2, 3, 4", "1, 4, 9, 16, 25", toFloat) ==
      Success(([0.0, 1.0, 2.0, 3.0, 4.0], [1.0, 4.0, 9.0, 16.0, 25.0]))
  {
    ExampleTokens();
    ExampleConverts(toFloat);
  }

  /** The example's tokens convert to the five abscissae and the five ordinates. */
  lemma ExampleConverts(toFloat: string -> Option<real>)
    requires ReadsExampleNumerals(toFloat)
    ensures ConvertAll(["0", "1", "2", "3", "4"], toFloat) == Some([0.0, 1.0, 2.0, 3.0, 4.0])
    ensures ConvertAll(["1", "4", "9", "16", "25"], toFloat) == Some([1.0, 4.0, 9.0, 16.0, 25.0])
  {
    var xt, xv := ["0", "1", "2", "3", "4"], [0.0, 1.0, 2.0, 3.0, 4.0];
    var yt, yv := ["1", "4", "9", "16", "25"], [1.0, 4.0, 9.0, 16.0, 25.0];
    assert xt[0] == "0" && xt[1] == "1" && xt[2] == "2" && xt[3] == "3" && xt[4] == "4";
    assert yt[0] == "1" && yt[1] == "4" && yt[2] == "9" && yt[3] == "16" && yt[4] == "25";
    ConvertsTo(xt, xv, toFloat);
    ConvertsTo(yt, yv, toFloat);
  }

  /** The example's first row is a header: "X" is not a number. */
  lemma ExampleHeader(toFloat: string -> Option<real>)
    requires toFloat("X") == None
    ensures HasHeader(["X", "Y"], toFloat)
  {
    StripPadded("", "X", "");
    assert "" + "X" + "" == "X" && ["X", "Y"][0] == "X";
  }

  /** The example's data rows are all readable. */
  lemma ExampleReadable(toFloat: string -> Option<real>)
    requires ReadsExampleNumerals(toFloat)
    ensures forall t :: 0 <= t < 5 ==> Readable([["0", "1"], ["1", "4"], ["2", "9"], ["3", "16"], ["4", "25"]][t], toFloat)
  {
    NumeralRow("0", "1", 0.0, 1.0, toFloat);
    NumeralRow("1", "4", 1.0, 4.0, toFloat);
    NumeralRow("2", "9", 2.0, 9.0, toFloat);
    NumeralRow("3", "16", 3.0, 16.0, toFloat);
    NumeralRow("4", "25", 4.0, 25.0, toFloat);
  }

  /** All five data rows give the five points. */
  lemma ExampleKept(toFloat: string -> Option<real>)
    requires ReadsExampleNumerals(toFloat)
    ensures Kept([["0", "1"], ["1", "4"], ["2", "9"], ["3", "16"], ["4", "25"]], toFloat) ==
      [(0.0, 1.0), (1.0, 4.0), (2.0, 9.0), (3.0, 16.0), (4.0, 25.0)]
  {
    var rows := [["0", "1"], ["1", "4"], ["2", "9"], ["3", "16"], ["4", "25"]];
    var points := [(0.0, 1.0), (1.0, 4.0), (2.0, 9.0), (3.0, 16.0), (4.0, 25.0)];
    NumeralRow("0", "1", 0.0, 1.0, toFloat);
    NumeralRow("1", "4", 1.0, 4.0, toFloat);
    NumeralRow("2", "9", 2.0, 9.0, toFloat);
    NumeralRow("3", "16", 3.0, 16.0, toFloat);
    NumeralRow("4", "25", 4.0, 25.0, toFloat);
    assert rows[0] == ["0", "1"] && rows[1] == ["1", "4"] && rows[2] == ["2", "9"];
    assert rows[3] == ["3", "16"] && rows[4] == ["4", "25"];
    KeptAllComplete(rows, points, toFloat);
  }

  /** The five example points are already in order. */
  lemma ExampleSorted()
    ensures SortPairs([(0.0, 1.0), (1.0, 4.0), (2.0, 9.0), (3.0, 16.0), (4.0, 25.0)]) ==
      [(0.0, 1.0), (1.0, 4.0), (2.0, 9.0), (3.0, 16.0), (4.0, 25.0)]
  {
    SortSorted([(0.0, 1.0), (1.0, 4.0), (2.0, 9.0), (3.0, 16.0), (4.0, 25.0)]);
  }

  /** The columns of the five example points are the two lists. */
  lemma ExampleColumns()
    ensures Firsts([(0.0, 1.0), (1.0, 4.0), (2.0, 9.0), (3.0, 16.0), (4.0, 25.0)]) == [0.0, 1.0, 2.0, 3.0, 4.0]
    ensures Seconds([(0.0, 1.0), (1.0, 4.0), (2.0, 9.0), (3.0, 16.0), (4.0, 25.0)]) == [1.0, 4.0, 9.0, 16.0, 25.0]
  {
    FirstsAt([(0.0, 1.0), (1.0, 4.0), (2.0, 9.0), (3.0, 16.0), (4.0, 25.0)]);
    SecondsAt([(0.0, 1.0), (1.0, 4.0), (2.0, 9.0), (3.0, 16.0), (4.0, 25.0)]);
  }

  /** The header row "X,Y" is dropped and the five data rows come back in order. */
  lemma CsvExample(toFloat: string -> Option<real>)
    requires ReadsExampleNumerals(toFloat) && toFloat("X") == None
    ensures ParseCsvSpec([["X", "Y"], ["0", "1"], ["1", "4"], ["2", "9"], ["3", "16"], ["4", "25"]], toFloat) ==
      Success(([0.0, 1.0, 2.0, 3.0, 4.0], [1.0, 4.0, 9.0, 16.0, 25.0]))
  {
    var rows := [["X", "Y"], ["0", "1"], ["1", "4"], ["2", "9"], ["3", "16"], ["4", "25"]];
    var data := [["0", "1"], ["1", "4"], ["2", "9"], ["3", "16"], ["4", "25"]];
    ExampleHeader(toFloat);
    assert rows[0] == ["X", "Y"] && rows[1..] == data;
    ExampleReadable(toFloat);
    ExampleKept(toFloat);
    ScanSucceedsOnReadable(data, 2, toFloat);
    ExampleSorted();
    ExampleColumns();
  }
}
