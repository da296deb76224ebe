/**
 * The character table behind the barcode catalog (`BarcodeData`): each row
 * pairs a character with its Code 39 bar/space pattern, written with 'w' for a
 * wide element, and the pattern's binary digest.  Text is encoded character by
 * character against the table, strictly (an unknown character is an error) or
 * leniently (an unknown character is dropped).
 */
module Barcode {
  import opened Wrappers
  import opened Text

  /** One row of the table file: its `Character` and `Sequence` cells as text. */
  datatype CharacterRow = CharacterRow(character: string, sequence: string)

  /** A loaded row: the trimmed character cell, the trimmed pattern and its digest. */
  datatype Mapping = Mapping(asciiChar: string, barcode: string, binary: string)

  /** One entry of an encoded text: the character, its pattern and its digest. */
  datatype Encoded = Encoded(ch: char, barcode: string, binary: string)

  datatype EncodeError =
    | Unmapped(ch: char)  // strict mode met a character with no row (ValueError)
    | NoCharacterColumn       // the table holds no rows, so it has no character column (KeyError)

  function DigitOf(symbol: char): char
  {
    if symbol == 'w' then '1' else '0'
  }

  /**
   * The binary digest of a bar/space pattern: as long as the pattern, with '1'
   * exactly where the pattern has 'w' and '0' everywhere else.  Nothing checks
   * that a pattern has Code 39's nine elements with three of them wide.
   */
  function Digest(pattern: string): (d: string)
    ensures |d| == |pattern|
    ensures forall i :: 0 <= i < |d| ==> (d[i] == '1' <==> pattern[i] == 'w')
    ensures forall i :: 0 <= i < |d| ==> (d[i] == '0' <==> pattern[i] != 'w')
  {
    if pattern == [] then []
    else Digest(pattern[..|pattern| - 1]) + [DigitOf(pattern[|pattern| - 1])]
  }

  /** Reads a digest back as a pattern of narrow 'n' and wide 'w' elements. */
  function Widths(digest: string): (p: string)
  {
    seq(|digest|, i requires 0 <= i < |digest| => if digest[i] == '1' then 'w' else 'n')
  }

  predicate NarrowWide(pattern: string)
  {
    forall i :: 0 <= i < |pattern| ==> pattern[i] == 'n' || pattern[i] == 'w'
  }

  /** A pattern written with 'n' and 'w' only is recovered from its digest. */
  lemma DigestRoundTrip(pattern: string)
    requires NarrowWide(pattern)
    ensures Widths(Digest(pattern)) == pattern
  {
  }

  /** A text made only of the digits `0` and `1`. */
  predicate BinaryDigits(s: string)
  {
    forall i :: 0 <= i < |s| ==> s[i] == '0' || s[i] == '1'
  }

  /** The row `load_csv` builds from one line of the table file. */
  function MakeMapping(row: CharacterRow): (m: Mapping)
    ensures m.asciiChar == Strip(row.character) && m.barcode == Strip(row.sequence)
    ensures m.binary == Digest(m.barcode)
    ensures |m.binary| == |m.barcode| && BinaryDigits(m.binary)
  {
    var pattern := Strip(row.sequence);
    Mapping(Strip(row.character), pattern, Digest(pattern))
  }

  /** Index of the first row whose character cell is exactly `c` (the row `iloc[0]` picks). */
  function FirstRow(table: seq<Mapping>, c: char): (r: Option<nat>)
    ensures r.Some? ==> r.value < |table| && table[r.value].asciiChar == [c]
    ensures r.Some? ==> forall j :: 0 <= j < r.value ==> table[j].asciiChar != [c]
    ensures r.None? ==> forall j :: 0 <= j < |table| ==> table[j].asciiChar != [c]
  {
    if table == [] then None
    else if table[0].asciiChar == [c] then Some(0)
    else match FirstRow(table[1..], c)
      case None => None
      case Some(k) => Some(k + 1)
  }

  predicate Mapped(table: seq<Mapping>, c: char)
  {
    FirstRow(table, c).Some?
  }

  predicate AllMapped(table: seq<Mapping>, text: string)
  {
    forall i :: 0 <= i < |text| ==> Mapped(table, text[i])
  }

  /** Index of the first character of `text` that has no row. */
  function FirstUnmapped(table: seq<Mapping>, text: string): (r: Option<nat>)
    ensures r.Some? ==> r.value < |text| && !Mapped(table, text[r.value])
    ensures r.Some? ==> forall j :: 0 <= j < r.value ==> Mapped(table, text[j])
    ensures r.None? <==> AllMapped(table, text)
  {
    if text == [] then None
    else if !Mapped(table, text[0]) then Some(0)
    else match FirstUnmapped(table, text[1..])
      case None => None
      case Some(k) => Some(k + 1)
  }

  lemma FirstUnmappedAt(table: seq<Mapping>, text: string, i: nat)
    requires i < |text| && !Mapped(table, text[i])
    requires AllMapped(table, text[..i])
    ensures FirstUnmapped(table, text) == Some(i)
  {
    assert forall j :: 0 <= j < i ==> text[..i][j] == text[j];
    var first := FirstUnmapped(table, text);
    assert first.Some?;
    assert !(first.value < i) && !(i < first.value);
  }

  /** The entry for one character: its first row, or nothing when it has none. */
  function EncodeChar(table: seq<Mapping>, c: char): seq<Encoded>
  {
    match FirstRow(table, c)
    case None => []
    case Some(k) => [Encoded(c, table[k].barcode, table[k].binary)]
  }

  /** The lenient encoding of `text`: one entry per character that has a row, in text order. */
  function Encoding(table: seq<Mapping>, text: string): seq<Encoded>
  {
    if text == [] then []
    else Encoding(table, text[..|text| - 1]) + EncodeChar(table, text[|text| - 1])
  }

  /** Encoding one more character of a text appends that character's first row, if it has one. */
  lemma EncodingStep(table: seq<Mapping>, text: string, i: nat)
    requires i < |text|
    ensures FirstRow(table, text[i]).Some? ==>
              var row := table[FirstRow(table, text[i]).value];
              Encoding(table, text[..i + 1]) == Encoding(table, text[..i]) + [Encoded(text[i], row.barcode, row.binary)]
    ensures FirstRow(table, text[i]).None? ==> Encoding(table, text[..i + 1]) == Encoding(table, text[..i])
  {
    assert text[..i + 1][..i] == text[..i];
  }

  /** A mapped character extends a mapped prefix. */
  lemma AllMappedStep(table: seq<Mapping>, text: string, i: nat)
    requires i < |text| && Mapped(table, text[i])
    ensures AllMapped(table, text[..i]) ==> AllMapped(table, text[..i + 1])
  {
    assert forall j :: 0 <= j < i ==> text[..i + 1][j] == text[..i][j];
  }

  /** The characters of `text` that have a row, in order. */
  function MappedChars(table: seq<Mapping>, text: string): string
  {
    if text == [] then []
    else (if Mapped(table, text[0]) then [text[0]] else []) + MappedChars(table, text[1..])
  }

  function Chars(es: seq<Encoded>): string
  {
    seq(|es|, i requires 0 <= i < |es| => es[i].ch)
  }

  /** Encoding a concatenation encodes each part in turn. */
  lemma {:induction false} EncodingAppend(table: seq<Mapping>, a: string, b: string)
    ensures Encoding(table, a + b) == Encoding(table, a) + Encoding(table, b)
    decreases |b|
  {
    if b == [] {
      assert a + b == a;
    } else {
      var b' := b[..|b| - 1];
      assert (a + b)[..|a + b| - 1] == a + b';
      EncodingAppend(table, a, b');
    }
  }

  /**
   * Lenient encoding keeps exactly the characters that have a row, in text
   * order, and drops the others.
   */
  lemma {:induction false} EncodingKeepsMappedChars(table: seq<Mapping>, text: string)
    ensures Chars(Encoding(table, text)) == MappedChars(table, text)
    decreases |text|
  {
    if text != [] {
      assert text == [text[0]] + text[1..];
      EncodingAppend(table, [text[0]], text[1..]);
      assert [text[0]][..0] == [];
      EncodingKeepsMappedChars(table, text[1..]);
    }
  }

  /**
   * When every character has a row, the encoding has one entry per character,
   * in text order, each taken from the character's first row.
   */
  lemma {:induction false} EncodingAllMapped(table: seq<Mapping>, text: string)
    requires AllMapped(table, text)
    ensures |Encoding(table, text)| == |text|
    ensures forall i :: 0 <= i < |text| ==>
      var row := table[FirstRow(table, text[i]).value];
      Encoding(table, text)[i] == Encoded(text[i], row.barcode, row.binary)
    decreases |text|
  {
    if text != [] {
      EncodingAllMapped(table, text[..|text| - 1]);
    }
  }

  /** An unmapped character makes the lenient encoding shorter than the text. */
  lemma {:induction false} EncodingShorter(table: seq<Mapping>, text: string)
    requires !AllMapped(table, text)
    ensures |Encoding(table, text)| < |text|
    decreases |text|
  {
    var init := text[..|text| - 1];
    EncodingAtMost(table, init);
    if AllMapped(table, init) {
      assert !Mapped(table, text[|text| - 1]);
    } else {
      EncodingShorter(table, init);
    }
  }

  lemma {:induction false} EncodingAtMost(table: seq<Mapping>, text: string)
    ensures |Encoding(table, text)| <= |text|
    decreases |text|
  {
    if text != [] {
      EncodingAtMost(table, text[..|text| - 1]);
    }
  }

  /** The table `load_csv` stores. */
  class BarcodeData {
    var table: seq<Mapping>

    /** A new table is empty. */
    constructor()
      ensures table == []
    {
      table := [];
    }

    /** Replaces the table with one mapping per row of the file, in file order. */
    method LoadCsv(rows: seq<CharacterRow>)
      modifies this
      ensures |table| == |rows|
      ensures forall k :: 0 <= k < |rows| ==> table[k] == MakeMapping(rows[k])
    {
      var loaded: seq<Mapping> := [];
      for i := 0 to |rows|
        invariant |loaded| == i
        invariant forall k :: 0 <= k < i ==> loaded[k] == MakeMapping(rows[k])
      {
        loaded := loaded + [MakeMapping(rows[i])];
      }
      table := loaded;
    }

    /**
     * `encode_string(text, strict)`.  Fails with `NoCharacterColumn` when the table
     * is empty and there is a character to look up; in strict mode fails on the
     * first character without a row; otherwise returns the lenient encoding,
     * which in strict mode has one entry per character.
     */
    method EncodeString(text: string, strict: bool) returns (r: Result<seq<Encoded>, EncodeError>)
      ensures table == [] && text != [] ==> r == Failure(NoCharacterColumn)
      ensures table != [] && strict && !AllMapped(table, text) ==>
                r == Failure(Unmapped(text[FirstUnmapped(table, text).value]))
      ensures (table != [] || text == []) && (!strict || AllMapped(table, text)) ==>
                r == Success(Encoding(table, text))
    {
      if table == [] && text != [] {
        // the first character's lookup already fails on the missing column
        return Failure(NoCharacterColumn);
      }
      var t := table;
      var encoded: seq<Encoded> := [];
      for i := 0 to |text|
        invariant encoded == Encoding(t, text[..i])
        invariant strict ==> AllMapped(t, text[..i])
      {
        EncodingStep(t, text, i);
        var found := FirstRow(t, text[i]);
        if found.Some? {
          encoded := encoded + [Encoded(text[i], t[found.value].barcode, t[found.value].binary)];
          AllMappedStep(t, text, i);
        } else if strict {
          FirstUnmappedAt(t, text, i);
          return Failure(Unmapped(text[i]));
        }
      }
      assert text[..|text|] == text;
      return Success(encoded);
    }
  }
}
