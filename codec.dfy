/** The text form of a saved grid.
 *
 *  GameSave.saveData(String, int[][]) writes the rows joined by ';' and the
 *  values of a row joined by ',', each value in decimal; a null grid is
 *  written as the empty string. GameSave.loadInt2DData reads the empty string
 *  as "no grid", and otherwise splits on ';', splits each piece on ',' and
 *  parses every token with Integer.parseInt, which throws on a token that is
 *  not a decimal int. The java.lang operations this relies on
 *  (Integer.toString, Integer.parseInt, String.split on a one-character
 *  delimiter) are modelled here as functions on strings. */
module Codec {
  datatype Option<T> = None | Some(value: T)

  /** Err stands for the NumberFormatException of Integer.parseInt. */
  datatype Result<T> = Ok(value: T) | Err

  const RowDelimiter: char := ';'
  const ColumnDelimiter: char := ','

  /** The range of a Java int. */
  predicate IsInt32(v: int) {
    -0x8000_0000 <= v < 0x8000_0000
  }

  predicate IsDigit(c: char) {
    '0' <= c <= '9'
  }

  predicate AllDigits(s: string) {
    forall k :: 0 <= k < |s| ==> IsDigit(s[k])
  }

  function DigitChar(d: int): (c: char)
    requires 0 <= d < 10
    ensures IsDigit(c)
  {
    (48 + d) as char
  }

  function DigitValue(c: char): int
    requires IsDigit(c)
  {
    c as int - 48
  }

  // ---------------------------------------------------------------------------
  // Integer.toString and Integer.parseInt

  /** The decimal digits of n, most significant first, without leading zeros. */
  function NatToString(n: nat): (s: string)
    ensures |s| > 0 && AllDigits(s)
    decreases n
  {
    if n < 10 then [DigitChar(n)] else NatToString(n / 10) + [DigitChar(n % 10)]
  }

  /** Integer.toString: a minus sign for a negative value, then the digits. */
  function IntToString(v: int): (s: string)
    ensures |s| > 0
    ensures forall k :: 0 <= k < |s| ==> IsDigit(s[k]) || (k == 0 && s[k] == '-')
  {
    if v < 0 then "-" + NatToString(-v) else NatToString(v)
  }

  /** The value of a string of decimal digits. */
  function DigitsValue(ds: string): nat
    requires AllDigits(ds)
  {
    if ds == [] then 0 else 10 * DigitsValue(ds[..|ds| - 1]) + DigitValue(ds[|ds| - 1])
  }

  /** The text the model's Integer.parseInt accepts: an optional sign in
   *  front, then one or more ASCII digits '0'..'9' and nothing else. Java
   *  also accepts the decimal digits of other Unicode scripts; the model does
   *  not, and reads them as a failed parse. */
  predicate IsDecimal(s: string) {
    (exists k :: 0 <= k < |s| && IsDigit(s[k])) &&
    forall k :: 0 <= k < |s| ==> IsDigit(s[k]) || (k == 0 && (s[k] == '-' || s[k] == '+'))
  }

  /** Integer.parseInt(s) in radix 10, restricted to ASCII digits. */
  function ParseInt(s: string): (r: Result<int>)
    ensures r.Ok? ==> IsDecimal(s) && IsInt32(r.value)
  {
    if s == [] then Err
    else
      var digits := if s[0] == '-' || s[0] == '+' then s[1..] else s;
      if digits == [] || !AllDigits(digits) then Err
      else
        var magnitude: int := DigitsValue(digits);
        var v := if s[0] == '-' then -magnitude else magnitude;
        if IsInt32(v) then
          assert digits[0] == s[|s| - |digits|];
          Ok(v)
        else Err
  }

  lemma {:induction false} NatToStringValue(n: nat)
    ensures DigitsValue(NatToString(n)) == n
    decreases n
  {
    if n >= 10 {
      var s := NatToString(n);
      assert s[..|s| - 1] == NatToString(n / 10);
      NatToStringValue(n / 10);
    }
  }

  /** Integer.parseInt reads back what Integer.toString wrote. */
  lemma ParseIntToString(v: int)
    requires IsInt32(v)
    ensures ParseInt(IntToString(v)) == Ok(v)
  {
    var s := IntToString(v);
    if v < 0 {
      assert s[1..] == NatToString(-v);
      NatToStringValue(-v);
    } else {
      NatToStringValue(v);
    }
  }

  /** Integer.parseInt rejects the text of a value outside the int range. */
  lemma ParseIntOutOfRange(v: int)
    requires !IsInt32(v)
    ensures ParseInt(IntToString(v)) == Err
  {
    var s := IntToString(v);
    if v < 0 {
      assert s[1..] == NatToString(-v);
      NatToStringValue(-v);
    } else {
      NatToStringValue(v);
    }
  }

  lemma ParseIntExamples()
    ensures ParseInt("+7") == Ok(7) && ParseInt("07") == Ok(7) && ParseInt("-0") == Ok(0)
    ensures ParseInt("") == Err && ParseInt("-") == Err && ParseInt("1,2") == Err
  {
    assert DigitsValue("") == 0;
    assert "7"[..0] == "" && DigitsValue("7") == 7;
    assert "0"[..0] == "" && DigitsValue("0") == 0;
    assert "+7"[1..] == "7";
    assert "07"[..1] == "0" && DigitsValue("07") == 7;
    assert "-0"[1..] == "0";
    assert "-"[1..] == "";
    assert !IsDigit("1,2"[1]);
  }

  // ---------------------------------------------------------------------------
  // String.split on a one-character delimiter

  /** Every piece of s between occurrences of d, empty pieces included. */
  function SplitAll(s: string, d: char): (parts: seq<string>)
    ensures |parts| >= 1
    ensures forall k :: 0 <= k < |parts| ==> d !in parts[k]
  {
    if s == [] then [[]]
    else
      var rest := SplitAll(s[1..], d);
      if s[0] == d then [[]] + rest else [[s[0]] + rest[0]] + rest[1..]
  }

  function DropTrailingEmpty(parts: seq<string>): (r: seq<string>)
    ensures r <= parts
    ensures r == [] || r[|r| - 1] != []
    ensures forall k :: |r| <= k < |parts| ==> parts[k] == []
  {
    if parts == [] || parts[|parts| - 1] != [] then parts
    else DropTrailingEmpty(parts[..|parts| - 1])
  }

  /** String.split(d) for a d that is not a regular-expression metacharacter
   *  (as ';' and ',' are not): a string without d splits into itself;
   *  otherwise into the pieces between the d's, trailing empty pieces removed. */
  function Split(s: string, d: char): (parts: seq<string>)
    ensures forall k :: 0 <= k < |parts| ==> d !in parts[k]
  {
    if d !in s then [s] else DropTrailingEmpty(SplitAll(s, d))
  }

  /** The parts with d between each two neighbours. */
  function Join(parts: seq<string>, d: char): string {
    if parts == [] then []
    else if |parts| == 1 then parts[0]
    else Join(parts[..|parts| - 1], d) + [d] + parts[|parts| - 1]
  }

  lemma {:induction false} SplitAllNoDelimiter(p: string, d: char)
    requires d !in p
    ensures SplitAll(p, d) == [p]
    decreases |p|
  {
    if p != [] {
      SplitAllNoDelimiter(p[1..], d);
      assert [p[0]] + p[1..] == p;
    }
  }

  lemma {:induction false} SplitAllAppend(s: string, d: char, p: string)
    requires d !in p
    ensures SplitAll(s + [d] + p, d) == SplitAll(s, d) + [p]
    decreases |s|
  {
    if s == [] {
      assert s + [d] + p == [d] + p;
      assert ([d] + p)[1..] == p;
      SplitAllNoDelimiter(p, d);
    } else {
      assert (s + [d] + p)[1..] == s[1..] + [d] + p;
      SplitAllAppend(s[1..], d, p);
    }
  }

  /** Splitting a join gives back the parts, empty parts included. */
  lemma {:induction false} SplitAllJoin(parts: seq<string>, d: char)
    requires |parts| >= 1 && forall k :: 0 <= k < |parts| ==> d !in parts[k]
    ensures SplitAll(Join(parts, d), d) == parts
    decreases |parts|
  {
    if |parts| == 1 {
      SplitAllNoDelimiter(parts[0], d);
    } else {
      var init := parts[..|parts| - 1];
      SplitAllJoin(init, d);
      SplitAllAppend(Join(init, d), d, parts[|parts| - 1]);
      assert init + [parts[|parts| - 1]] == parts;
    }
  }

  /** String.split undoes a join whose last part is not empty. */
  lemma SplitJoin(parts: seq<string>, d: char)
    requires |parts| >= 1 && forall k :: 0 <= k < |parts| ==> d !in parts[k]
    requires parts[|parts| - 1] != []
    ensures Split(Join(parts, d), d) == parts
  {
    if |parts| > 1 {
      var init := parts[..|parts| - 1];
      assert Join(parts, d)[|Join(init, d)|] == d;
      SplitAllJoin(parts, d);
    }
  }

  lemma {:induction false} JoinAvoids(parts: seq<string>, d: char, x: char)
    requires x != d && forall k :: 0 <= k < |parts| ==> x !in parts[k]
    ensures x !in Join(parts, d)
    decreases |parts|
  {
    if |parts| > 1 {
      JoinAvoids(parts[..|parts| - 1], d, x);
    }
  }

  /** Java drops the trailing empty strings of a split, and a string without
   *  the delimiter splits into itself. */
  lemma SplitExamples()
    ensures Split("a;;b;;", ';') == ["a", "", "b"]
    ensures Split("", ';') == [""] && Split(";", ';') == []
  {
    SplitTwoGaps();
    assert ';' in "a;;b;;" by {
      assert "a;;b;;"[1] == ';';
    }
    DropTwoEmpty(["a", "", "b"]);
    assert ["a", "", "b"] + ["", ""] == ["a", "", "b", "", ""];
    SplitAllDelimiter("", ';');
    assert ";" == [';'] + "";
    assert ';' in ";" by {
      assert ";"[0] == ';';
    }
    assert SplitAll(";", ';') == ["", ""];
    assert ["", ""][..1] == [""] && [""][..0] == [];
    assert DropTrailingEmpty(["", ""]) == [];
  }

  lemma SplitTwoGaps()
    ensures SplitAll("a;;b;;", ';') == ["a", "", "b", "", ""]
  {
    SplitGapThenB();
    SplitAllBeforeDelimiter('a', ";;b;;", ';');
    assert "a;;b;;" == ['a'] + ";;b;;";
  }

  lemma SplitGapThenB()
    ensures SplitAll(";;b;;", ';') == ["", "", "b", "", ""]
  {
    SplitBThenGap();
    SplitAllDelimiter("b;;", ';');
    SplitAllDelimiter(";b;;", ';');
    assert ";b;;" == [';'] + "b;;" && ";;b;;" == [';'] + ";b;;";
  }

  lemma SplitBThenGap()
    ensures SplitAll("b;;", ';') == ["b", "", ""]
  {
    SplitAllDelimiter(";", ';');
    SplitAllDelimiter("", ';');
    assert ";;" == [';'] + ";" && ";" == [';'] + "";
    assert SplitAll(";;", ';') == ["", "", ""];
    SplitAllBeforeDelimiter('b', ";;", ';');
    assert "b;;" == ['b'] + ";;";
  }

  /** SplitAll of a character other than d followed by a string that starts
   *  with d: the character is a piece of its own. */
  lemma SplitAllBeforeDelimiter(c: char, s: string, d: char)
    requires c != d && SplitAll(s, d)[0] == []
    ensures SplitAll([c] + s, d) == [[c]] + SplitAll(s, d)[1..]
  {
    assert ([c] + s)[1..] == s;
    assert [c] + [] == [c];
  }

  /** Two trailing empty pieces after a non-empty one are dropped. */
  lemma DropTwoEmpty(parts: seq<string>)
    requires parts != [] && parts[|parts| - 1] != []
    ensures DropTrailingEmpty(parts + ["", ""]) == parts
  {
    var p2 := parts + ["", ""];
    assert p2[..|p2| - 1] == parts + [""];
    assert (parts + [""])[..|parts|] == parts;
  }

  /** SplitAll of a string that starts with d. */
  lemma SplitAllDelimiter(s: string, d: char)
    ensures SplitAll([d] + s, d) == [[]] + SplitAll(s, d)
  {
    assert ([d] + s)[1..] == s;
  }

  /** SplitAll of a string that starts with a character other than d. */
  lemma SplitAllStep(c: char, s: string, d: char)
    requires c != d
    ensures var rest := SplitAll(s, d); SplitAll([c] + s, d) == [[c] + rest[0]] + rest[1..]
  {
    assert ([c] + s)[1..] == s;
  }

  // ---------------------------------------------------------------------------
  // The grid text

  function Tokens(row: seq<int>): seq<string> {
    seq(|row|, j requires 0 <= j < |row| => IntToString(row[j]))
  }

  function EncodeRow(row: seq<int>): string {
    Join(Tokens(row), ColumnDelimiter)
  }

  function RowTexts(g: seq<seq<int>>): seq<string> {
    seq(|g|, i requires 0 <= i < |g| => EncodeRow(g[i]))
  }

  /** The text saveData(String, int[][]) stores; None is Java's null. */
  function Encode(data: Option<seq<seq<int>>>): string {
    if data.None? then "" else Join(RowTexts(data.value), RowDelimiter)
  }

  /** Parses every token of a row; one bad token fails the row. */
  function ParseRow(tokens: seq<string>): (r: Result<seq<int>>)
    ensures r.Ok? ==> |r.value| == |tokens|
  {
    if tokens == [] then Ok([])
    else
      match ParseRow(tokens[..|tokens| - 1])
      case Err => Err
      case Ok(init) =>
        match ParseInt(tokens[|tokens| - 1])
        case Err => Err
        case Ok(v) => Ok(init + [v])
  }

  /** Splits each row text on ',' and parses its tokens. */
  function DecodeRows(texts: seq<string>): (r: Result<seq<seq<int>>>)
    ensures r.Ok? ==> |r.value| == |texts|
    ensures r.Ok? ==> forall i :: 0 <= i < |texts| ==> |r.value[i]| == |Split(texts[i], ColumnDelimiter)|
  {
    if texts == [] then Ok([])
    else
      match DecodeRows(texts[..|texts| - 1])
      case Err => Err
      case Ok(init) =>
        match ParseRow(Split(texts[|texts| - 1], ColumnDelimiter))
        case Err => Err
        case Ok(row) => Ok(init + [row])
  }

  /** What loadInt2DData returns for the stored text s: None (null) exactly
   *  for the empty text, Err where Integer.parseInt throws. The decoded grid
   *  has one row per ';'-piece of s and, in row i, one value per ','-piece of
   *  the i-th ';'-piece. */
  function Decode(s: string): (r: Result<Option<seq<seq<int>>>>)
    ensures r == Ok(None) <==> s == ""
    ensures r.Ok? && r.value.Some? ==>
      var rows := Split(s, RowDelimiter);
      |r.value.value| == |rows| &&
      forall i :: 0 <= i < |rows| ==> |r.value.value[i]| == |Split(rows[i], ColumnDelimiter)|
  {
    if s == "" then Ok(None)
    else
      match DecodeRows(Split(s, RowDelimiter))
      case Err => Err
      case Ok(g) => Ok(Some(g))
  }

  // ---------------------------------------------------------------------------
  // Round trip

  /** A grid that survives saving: at least one row, no empty row, int values. */
  predicate Encodable(g: seq<seq<int>>) {
    |g| >= 1 &&
    (forall i :: 0 <= i < |g| ==> |g[i]| >= 1) &&
    forall i, j :: 0 <= i < |g| && 0 <= j < |g[i]| ==> IsInt32(g[i][j])
  }

  lemma ParseRowTokens(row: seq<int>)
    requires forall j :: 0 <= j < |row| ==> IsInt32(row[j])
    ensures ParseRow(Tokens(row)) == Ok(row)
  {
    var tokens := Tokens(row);
    forall j | 0 <= j < |row|
      ensures ParseInt(tokens[j]) == Ok(row[j])
    {
      ParseIntToString(row[j]);
    }
    ParseRowOk(tokens, row);
  }

  /** Tokens that each parse give the row of their values. */
  lemma {:induction false} ParseRowOk(tokens: seq<string>, row: seq<int>)
    requires |tokens| == |row|
    requires forall j :: 0 <= j < |row| ==> ParseInt(tokens[j]) == Ok(row[j])
    ensures ParseRow(tokens) == Ok(row)
    decreases |row|
  {
    if row != [] {
      var k := |row| - 1;
      ParseRowOk(tokens[..k], row[..k]);
      ParseRowLast(tokens, row[..k], row[k]);
      assert row[..k] + [row[k]] == row;
    }
  }

  /** The values parsed so far, and one more token that parses. */
  lemma ParseRowLast(tokens: seq<string>, init: seq<int>, v: int)
    requires tokens != [] && ParseRow(tokens[..|tokens| - 1]) == Ok(init)
    requires ParseInt(tokens[|tokens| - 1]) == Ok(v)
    ensures ParseRow(tokens) == Ok(init + [v])
  {
  }

  lemma RowRoundTrip(row: seq<int>)
    requires |row| >= 1 && forall j :: 0 <= j < |row| ==> IsInt32(row[j])
    ensures ';' !in EncodeRow(row) && EncodeRow(row) != []
    ensures ParseRow(Split(EncodeRow(row), ColumnDelimiter)) == Ok(row)
  {
    var ts := Tokens(row);
    JoinAvoids(ts, ColumnDelimiter, ';');
    SplitJoin(ts, ColumnDelimiter);
    ParseRowTokens(row);
  }

  lemma DecodeRowTexts(g: seq<seq<int>>)
    requires forall i :: 0 <= i < |g| ==> |g[i]| >= 1
    requires forall i, j :: 0 <= i < |g| && 0 <= j < |g[i]| ==> IsInt32(g[i][j])
    ensures DecodeRows(RowTexts(g)) == Ok(g)
  {
    var texts := RowTexts(g);
    forall i | 0 <= i < |g|
      ensures ParseRow(Split(texts[i], ColumnDelimiter)) == Ok(g[i])
    {
      RowRoundTrip(g[i]);
    }
    DecodeRowsOk(texts, g);
  }

  /** Texts whose every row parses decode to those rows. */
  lemma {:induction false} DecodeRowsOk(texts: seq<string>, g: seq<seq<int>>)
    requires |texts| == |g|
    requires forall i :: 0 <= i < |g| ==> ParseRow(Split(texts[i], ColumnDelimiter)) == Ok(g[i])
    ensures DecodeRows(texts) == Ok(g)
    decreases |g|
  {
    if g != [] {
      var k := |g| - 1;
      DecodeRowsOk(texts[..k], g[..k]);
      DecodeRowsLast(texts, g[..k], g[k]);
      assert g[..k] + [g[k]] == g;
    }
  }

  /** Loading what was saved gives back the grid, values included. */
  lemma EncodeDecode(g: seq<seq<int>>)
    requires Encodable(g)
    ensures Encode(Some(g)) != ""
    ensures Decode(Encode(Some(g))) == Ok(Some(g))
  {
    var texts := RowTexts(g);
    forall i | 0 <= i < |g|
      ensures ';' !in texts[i] && texts[i] != []
    {
      RowRoundTrip(g[i]);
    }
    SplitJoin(texts, RowDelimiter);
    DecodeRowTexts(g);
  }

  /** A grid with no tile is still saved as a non-empty text, so it reloads
   *  as a grid and not as "no saved game". */
  lemma ZeroGridRoundTrip(n: int)
    requires n >= 1
    ensures var z := seq(n, _ => seq(n, _ => 0));
      Encode(Some(z)) != "" && Decode(Encode(Some(z))) == Ok(Some(z))
  {
    EncodeDecode(seq(n, _ => seq(n, _ => 0)));
  }

  /** Why the round trip needs non-empty rows: a grid of one empty row is
   *  written as the empty text, which reads back as no grid. */
  lemma EmptyRowIsLost()
    ensures Encode(Some([[]])) == "" && Decode(Encode(Some([[]]))) == Ok(None)
  {
    assert Tokens([]) == [];
    assert RowTexts([[]]) == [""];
  }

  /** An empty last row is written as a trailing ';', which the split drops. */
  lemma EmptyLastRowIsLost()
    ensures Encode(Some([[1], []])) == "1;" && Decode("1;") == Ok(Some([[1]]))
  {
    assert Tokens([1]) == ["1"];
    assert RowTexts([[1], []]) == ["1", ""];
    SplitTrailingDelimiter();
    DecodeOneRow();
  }

  lemma SplitTrailingDelimiter()
    ensures Split("1;", ';') == ["1"]
  {
    SplitAllDelimiter("", ';');
    assert ";" == [';'] + "";
    SplitAllBeforeDelimiter('1', ";", ';');
    assert "1;" == ['1'] + ";";
    assert SplitAll("1;", ';') == ["1", ""];
    assert "1;"[1] == ';';
    assert ["1", ""][..1] == ["1"];
  }

  lemma DecodeOneRow()
    ensures DecodeRows(["1"]) == Ok([[1]])
  {
    assert Split("1", ColumnDelimiter) == ["1"];
    assert "1"[..0] == "" && DigitsValue("1") == 1;
    assert ParseInt("1") == Ok(1);
    assert ["1"][..0] == [];
    assert ParseRow(["1"]) == Ok([] + [1]);
    assert [] + [1] == [1];
    DecodeRowsOk(["1"], [[1]]);
  }

  // ---------------------------------------------------------------------------
  // Errors

  lemma {:induction false} ParseRowErr(tokens: seq<string>)
    ensures ParseRow(tokens).Err? <==> exists j :: 0 <= j < |tokens| && ParseInt(tokens[j]).Err?
    decreases |tokens|
  {
    if tokens != [] {
      var init := tokens[..|tokens| - 1];
      ParseRowErr(init);
      if ParseRow(init).Err? {
        var j :| 0 <= j < |init| && ParseInt(init[j]).Err?;
        assert tokens[j] == init[j];
      }
      if ParseRow(tokens).Ok? {
        forall j | 0 <= j < |tokens|
          ensures ParseInt(tokens[j]).Ok?
        {
          if j < |init| {
            assert tokens[j] == init[j];
          }
        }
      }
    }
  }

  lemma DecodeRowsErr(texts: seq<string>)
    ensures DecodeRows(texts).Err? <==>
      exists i :: 0 <= i < |texts| && ParseRow(Split(texts[i], ColumnDelimiter)).Err?
  {
    if DecodeRows(texts).Err? {
      DecodeRowsFails(texts);
    }
    if exists i :: 0 <= i < |texts| && ParseRow(Split(texts[i], ColumnDelimiter)).Err? {
      var i :| 0 <= i < |texts| && ParseRow(Split(texts[i], ColumnDelimiter)).Err?;
      DecodeRowsBadRow(texts, i);
    }
  }

  /** A failing decode has a row that does not parse. */
  lemma {:induction false} DecodeRowsFails(texts: seq<string>)
    requires DecodeRows(texts).Err?
    ensures exists i :: 0 <= i < |texts| && ParseRow(Split(texts[i], ColumnDelimiter)).Err?
    decreases |texts|
  {
    var k := |texts| - 1;
    var init := texts[..k];
    if DecodeRows(init).Err? {
      DecodeRowsFails(init);
      var i :| 0 <= i < k && ParseRow(Split(init[i], ColumnDelimiter)).Err?;
      assert texts[i] == init[i];
    } else {
      assert ParseRow(Split(texts[k], ColumnDelimiter)).Err?;
    }
  }

  /** A row that does not parse fails the whole decode. */
  lemma {:induction false} DecodeRowsBadRow(texts: seq<string>, i: int)
    requires 0 <= i < |texts| && ParseRow(Split(texts[i], ColumnDelimiter)).Err?
    ensures DecodeRows(texts).Err?
    decreases |texts|
  {
    var k := |texts| - 1;
    if i < k {
      assert texts[..k][i] == texts[i];
      DecodeRowsBadRow(texts[..k], i);
    }
  }

  /** The rows decoded so far, and one more row that parses. */
  lemma DecodeRowsLast(texts: seq<string>, init: seq<seq<int>>, row: seq<int>)
    requires texts != [] && DecodeRows(texts[..|texts| - 1]) == Ok(init)
    requires ParseRow(Split(texts[|texts| - 1], ColumnDelimiter)) == Ok(row)
    ensures DecodeRows(texts) == Ok(init + [row])
  {
  }

  /** loadInt2DData fails (Integer.parseInt throws, nothing catches it) exactly
   *  when the stored text is not empty and one of its tokens is not a decimal
   *  int. */
  lemma DecodeErr(s: string)
    ensures Decode(s).Err? <==>
      s != "" &&
      exists i, j :: 0 <= i < |Split(s, RowDelimiter)| &&
        0 <= j < |Split(Split(s, RowDelimiter)[i], ColumnDelimiter)| &&
        ParseInt(Split(Split(s, RowDelimiter)[i], ColumnDelimiter)[j]).Err?
  {
    var rows := Split(s, RowDelimiter);
    DecodeRowsErr(rows);
    if s != "" && DecodeRows(rows).Err? {
      var i :| 0 <= i < |rows| && ParseRow(Split(rows[i], ColumnDelimiter)).Err?;
      ParseRowErr(Split(rows[i], ColumnDelimiter));
    }
    if s != "" && DecodeRows(rows).Ok? {
      forall i, j | 0 <= i < |rows| && 0 <= j < |Split(rows[i], ColumnDelimiter)|
        ensures ParseInt(Split(rows[i], ColumnDelimiter)[j]).Ok?
      {
        ParseRowErr(Split(rows[i], ColumnDelimiter));
      }
    }
  }
}
