/** GameSave: the key-value store the game keeps its progress in (Android
 *  SharedPreferences behind it), with the int and grid save/load operations.
 *  The store is a map from key to a stored int or string; file I/O and the
 *  result of editor.commit() are not part of the model. */
module Persistence {
  import opened Codec

  datatype Pref = IntPref(i: int) | StringPref(s: string)

  type Store = map<string, Pref>

  /** The key is absent or holds an int (getInt throws on a stored string). */
  predicate HoldsInt(prefs: Store, key: string) {
    key !in prefs || prefs[key].IntPref?
  }

  /** The key is absent or holds a string (getString throws on a stored int). */
  predicate HoldsString(prefs: Store, key: string) {
    key !in prefs || prefs[key].StringPref?
  }

  /** SharedPreferences.getInt(key, 0). */
  function GetInt(prefs: Store, key: string): int
    requires HoldsInt(prefs, key)
  {
    if key in prefs then prefs[key].i else 0
  }

  /** SharedPreferences.getString(key, ""). */
  function GetString(prefs: Store, key: string): string
    requires HoldsString(prefs, key)
  {
    if key in prefs then prefs[key].s else ""
  }

  /** An int saved under a key loads back; a missing key loads as 0; saving
   *  under one key leaves every other key as it was. */
  lemma IntSaveLoad(prefs: Store, key: string, v: int, other: string)
    ensures GetInt(prefs[key := IntPref(v)], key) == v
    ensures key !in prefs ==> GetInt(prefs, key) == 0
    ensures other != key ==> (other in prefs[key := IntPref(v)] <==> other in prefs)
    ensures other != key && other in prefs ==> prefs[key := IntPref(v)][other] == prefs[other]
  {
  }

  // ---------------------------------------------------------------------------
  // The encoder and decoder loops of saveData(String, int[][]) and loadInt2DData

  /** The text written after the first i parts: each part followed by d,
   *  except the last part of all. */
  function EncodedPrefix(parts: seq<string>, i: int, d: char): string
    requires 0 <= i <= |parts|
  {
    if i == 0 then [] else Join(parts[..i], d) + (if i < |parts| then [d] else [])
  }

  lemma EncodedPrefixStep(parts: seq<string>, i: int, d: char)
    requires 0 <= i < |parts|
    ensures EncodedPrefix(parts, i, d) + parts[i] + (if i == |parts| - 1 then [] else [d]) == EncodedPrefix(parts, i + 1, d)
  {
    if i > 0 {
      assert parts[..i + 1][..i] == parts[..i];
    } else {
      assert parts[..1] == [parts[0]];
    }
  }

  lemma EncodedPrefixAll(parts: seq<string>, d: char)
    ensures EncodedPrefix(parts, |parts|, d) == Join(parts, d)
  {
    assert parts[..|parts|] == parts;
  }

  /** The inner StringBuilder loop of saveData(String, int[][]): the values of
   *  one row, with ',' after every value but the last. */
  method EncodeRowLoop(row: seq<int>) returns (text: string)
    ensures text == EncodeRow(row)
  {
    ghost var tokens := Tokens(row);
    text := "";
    var j := 0;
    while j < |row|
      invariant 0 <= j <= |row| && |tokens| == |row|
      invariant text == EncodedPrefix(tokens, j, ColumnDelimiter)
    {
      var tail: string := if j == |row| - 1 then "" else [ColumnDelimiter];
      assert IntToString(row[j]) == tokens[j];
      EncodedPrefixStep(tokens, j, ColumnDelimiter);
      text := text + IntToString(row[j]) + tail;
      j := j + 1;
    }
    EncodedPrefixAll(tokens, ColumnDelimiter);
  }

  /** The StringBuilder loops of saveData(String, int[][]): each row's text,
   *  a ';' after every row but the last; nothing for a null grid. */
  method EncodeGrid(data: Option<seq<seq<int>>>) returns (text: string)
    ensures text == Encode(data)
  {
    text := "";
    if data.Some? {
      var g := data.value;
      ghost var texts := RowTexts(g);
      var i := 0;
      while i < |g|
        invariant 0 <= i <= |g| && |texts| == |g|
        invariant text == EncodedPrefix(texts, i, RowDelimiter)
      {
        var rowText := EncodeRowLoop(g[i]);
        var tail: string := if i == |g| - 1 then "" else [RowDelimiter];
        assert rowText == texts[i];
        EncodedPrefixStep(texts, i, RowDelimiter);
        text := text + rowText + tail;
        i := i + 1;
      }
      EncodedPrefixAll(texts, RowDelimiter);
    }
  }

  lemma ParseRowStep(tokens: seq<string>, j: int, init: seq<int>)
    requires 0 <= j < |tokens| && ParseRow(tokens[..j]) == Ok(init)
    ensures ParseRow(tokens[..j + 1]) ==
      if ParseInt(tokens[j]).Err? then Err else Ok(init + [ParseInt(tokens[j]).value])
  {
    assert tokens[..j + 1][..j] == tokens[..j];
  }

  lemma DecodeRowsStep(texts: seq<string>, i: int, init: seq<seq<int>>)
    requires 0 <= i < |texts| && DecodeRows(texts[..i]) == Ok(init)
    ensures var row := ParseRow(Split(texts[i], ColumnDelimiter));
      DecodeRows(texts[..i + 1]) == if row.Err? then Err else Ok(init + [row.value])
  {
    assert texts[..i + 1][..i] == texts[..i];
  }

  /** A failing prefix of the rows fails the whole load. */
  lemma DecodeRowsPrefixErr(texts: seq<string>, k: int)
    requires 0 <= k <= |texts| && DecodeRows(texts[..k]).Err?
    ensures DecodeRows(texts).Err?
  {
    DecodeRowsErr(texts[..k]);
    var i :| 0 <= i < k && ParseRow(Split(texts[..k][i], ColumnDelimiter)).Err?;
    assert texts[..k][i] == texts[i];
    DecodeRowsErr(texts);
  }

  /** The inner loop of loadInt2DData: a freshly allocated row filled by
   *  parsing the tokens one by one; the first rejected token fails. */
  method ParseRowLoop(temp: seq<string>) returns (r: Result<seq<int>>)
    ensures r == ParseRow(temp)
  {
    var row := new int[|temp|];
    var j := 0;
    while j < |temp|
      invariant 0 <= j <= |temp|
      invariant ParseRow(temp[..j]) == Ok(row[..j])
    {
      var parsed := ParseInt(temp[j]);
      ParseRowStep(temp, j, row[..j]);
      if parsed.Err? {
        ParseRowErr(temp);
        return Err;
      }
      ghost var init := row[..j];
      row[j] := parsed.value;
      assert row[..j + 1] == init + [parsed.value];
      j := j + 1;
    }
    assert temp[..j] == temp && row[..j] == row[..];
    return Ok(row[..]);
  }

  /** The loops of loadInt2DData: no grid for the empty text; otherwise one
   *  row per ';'-piece, each parsed from its ','-pieces; the first token
   *  Integer.parseInt rejects ends the load with Err (the exception). */
  method DecodeGrid(rawData: string) returns (r: Result<Option<seq<seq<int>>>>)
    ensures r == Decode(rawData)
  {
    if rawData == "" {
      return Ok(None);
    }
    var strings := Split(rawData, RowDelimiter);
    var data := new seq<int>[|strings|];
    var i := 0;
    while i < |strings|
      invariant 0 <= i <= |strings|
      invariant DecodeRows(strings[..i]) == Ok(data[..i])
    {
      var row := ParseRowLoop(Split(strings[i], ColumnDelimiter));
      ghost var done := data[..i];
      DecodeRowsStep(strings, i, done);
      if row.Err? {
        DecodeRowsPrefixErr(strings, i + 1);
        return Err;
      }
      data[i] := row.value;
      assert data[..i + 1] == done + [row.value];
      i := i + 1;
    }
    assert strings[..i] == strings && data[..i] == data[..];
    return Ok(Some(data[..]));
  }

  /** The store of the game's progress. */
  class GameSave {
    var prefs: Store

    constructor (stored: Store)
      ensures prefs == stored
    {
      prefs := stored;
    }

    /** saveData(String, int). */
    method SaveInt(key: string, data: int)
      modifies this
      ensures prefs == old(prefs)[key := IntPref(data)]
    {
      prefs := prefs[key := IntPref(data)];
    }

    /** saveData(String, int[][]). */
    method SaveGrid(key: string, data: Option<seq<seq<int>>>)
      modifies this
      ensures prefs == old(prefs)[key := StringPref(Encode(data))]
    {
      var text := EncodeGrid(data);
      prefs := prefs[key := StringPref(text)];
    }

    /** loadIntData. */
    method LoadInt(key: string) returns (v: int)
      requires HoldsInt(prefs, key)
      ensures v == GetInt(prefs, key)
    {
      v := if key in prefs then prefs[key].i else 0;
    }

    /** loadInt2DData. */
    method LoadGrid(key: string) returns (r: Result<Option<seq<seq<int>>>>)
      requires HoldsString(prefs, key)
      ensures r == Decode(GetString(prefs, key))
    {
      var rawData := if key in prefs then prefs[key].s else "";
      r := DecodeGrid(rawData);
    }
  }
}
