/**
 * Decoding of one telemetry line, as the body of the serial reader loop in
 * MainWindow.xaml.cs does it: split on tab, strip blanks and line ends from
 * each piece, skip the pieces left empty, parse the rest into a seven-slot
 * buffer, and read the seven quantities off that buffer by position.
 */
module Frame {
  import opened Wrappers

  /** Length of the `float[7]` buffer a frame is decoded into. */
  const SlotCount := 7

  /** The field separator of the wire format. */
  const Tab := '\t'

  /**
   * The host's number parser (`float.Parse`). Its culture-dependent internals
   * are not modelled: `None` stands for the exception it throws.
   */
  type NumberParser = string -> Option<real>

  /** One decoded frame, in the protocol's fixed field order. */
  datatype Reading = Reading(heading: real, pitch: real, roll: real, deltaAltitude: real,
                             temperature: real, humidity: real, pressure: real)

  /** The buffer slot each quantity is read from, slot 0 first. */
  function Slots(rd: Reading): (s: seq<real>)
    ensures |s| == SlotCount
  {
    [rd.heading, rd.pitch, rd.roll, rd.deltaAltitude, rd.temperature, rd.humidity, rd.pressure]
  }

  // ---------------------------------------------------------------------------
  // Field cleaning (DeleteChar)
  // ---------------------------------------------------------------------------

  /** A character that DeleteChar drops: the one asked for, carriage return or line feed. */
  predicate Unwanted(c: char, charToDelete: char)
  {
    c == charToDelete || c == '\r' || c == '\n'
  }

  /** The characters of `s` that are not unwanted, in order (built from the end, as the loop appends). */
  function Deleted(s: string, charToDelete: char): string
  {
    if s == [] then []
    else Deleted(s[..|s| - 1], charToDelete) + Kept(s[|s| - 1], charToDelete)
  }

  function Kept(c: char, charToDelete: char): string
  {
    if Unwanted(c, charToDelete) then [] else [c]
  }

  /** DeleteChar: walks the input once, appending every character that is kept. */
  method DeleteChar(charToDelete: char, inputString: string) returns (outputString: string)
    ensures outputString == Deleted(inputString, charToDelete)
  {
    outputString := "";
    for i := 0 to |inputString|
      invariant outputString == Deleted(inputString[..i], charToDelete)
    {
      var c := inputString[i];
      assert inputString[..i + 1][..i] == inputString[..i];
      if c != charToDelete && c != '\r' && c != '\n' {
        outputString := outputString + [c];
      }
    }
    assert inputString[..|inputString|] == inputString;
  }

  /** Cleaning works character by character: it distributes over concatenation. */
  lemma {:induction false} DeletedAppend(a: string, b: string, charToDelete: char)
    ensures Deleted(a + b, charToDelete) == Deleted(a, charToDelete) + Deleted(b, charToDelete)
    decreases |b|
  {
    if b == [] {
      assert a + b == a;
    } else {
      var b' := b[..|b| - 1];
      assert (a + b)[..|a + b| - 1] == a + b';
      DeletedAppend(a, b', charToDelete);
    }
  }

  /** Each character occurs in the output as often as in the input, unless it is unwanted. */
  lemma {:induction false} DeletedCounts(s: string, charToDelete: char)
    ensures forall x :: multiset(Deleted(s, charToDelete))[x]
                        == if Unwanted(x, charToDelete) then 0 else multiset(s)[x]
    decreases |s|
  {
    if s != [] {
      var s' := s[..|s| - 1];
      assert s == s' + [s[|s| - 1]];
      DeletedCounts(s', charToDelete);
    }
  }

  /** A string holding none of the characters DeleteChar drops. */
  predicate Clean(s: string, charToDelete: char)
  {
    charToDelete !in s && '\r' !in s && '\n' !in s
  }

  /** The output never holds an unwanted character, interior positions included. */
  lemma DeletedIsClean(s: string, charToDelete: char)
    ensures Clean(Deleted(s, charToDelete), charToDelete)
  {
    DeletedCounts(s, charToDelete);
  }

  /** Cleaning leaves a string unchanged exactly when it holds no unwanted character. */
  lemma DeletedIdentity(s: string, charToDelete: char)
    ensures Deleted(s, charToDelete) == s <==> Clean(s, charToDelete)
  {
    if Clean(s, charToDelete) {
      DeletedOfClean(s, charToDelete);
    } else {
      DeletedIsClean(s, charToDelete);
    }
  }

  lemma {:induction false} DeletedOfClean(s: string, charToDelete: char)
    requires Clean(s, charToDelete)
    ensures Deleted(s, charToDelete) == s
    decreases |s|
  {
    if s != [] {
      var s' := s[..|s| - 1];
      assert s == s' + [s[|s| - 1]];
      assert forall c :: c in s' ==> c in s;
      DeletedOfClean(s', charToDelete);
    }
  }

  /** Cleaning twice is cleaning once. */
  lemma DeletedIdempotent(s: string, charToDelete: char)
    ensures Deleted(Deleted(s, charToDelete), charToDelete) == Deleted(s, charToDelete)
  {
    DeletedIsClean(s, charToDelete);
    DeletedOfClean(Deleted(s, charToDelete), charToDelete);
  }

  // ---------------------------------------------------------------------------
  // Splitting a line on tab (String.Split)
  // ---------------------------------------------------------------------------

  /**
   * The pieces of `s` between occurrences of `sep`. As with the host's split,
   * there is always at least one piece, and adjacent separators give an empty one.
   */
  function Split(s: string, sep: char): (pieces: seq<string>)
    ensures |pieces| >= 1
    decreases |s|
  {
    if s == [] then [[]]
    else
      var rest := Split(s[1..], sep);
      if s[0] == sep then [[]] + rest
      else [[s[0]] + rest[0]] + rest[1..]
  }

  /** The pieces glued back together with one separator between neighbours. */
  function Join(pieces: seq<string>, sep: char): string
    requires |pieces| >= 1
  {
    if |pieces| == 1 then pieces[0] else pieces[0] + [sep] + Join(pieces[1..], sep)
  }

  predicate SeparatorFree(pieces: seq<string>, sep: char)
  {
    forall k :: 0 <= k < |pieces| ==> sep !in pieces[k]
  }

  /** Splitting loses nothing: joining the pieces gives the line back. */
  lemma {:induction false} JoinSplit(s: string, sep: char)
    ensures Join(Split(s, sep), sep) == s
    decreases |s|
  {
    if s != [] {
      var rest := Split(s[1..], sep);
      JoinSplit(s[1..], sep);
      if s[0] == sep {
        JoinEmptyFirst(rest, sep);
      } else {
        JoinPrepend(s[0], rest, sep);
      }
      assert s == [s[0]] + s[1..];
    }
  }

  /** An empty first piece contributes only the separator that follows it. */
  lemma JoinEmptyFirst(pieces: seq<string>, sep: char)
    requires |pieces| >= 1
    ensures Join([[]] + pieces, sep) == [sep] + Join(pieces, sep)
  {
    assert ([[]] + pieces)[1..] == pieces;
  }

  /** A character put in front of the first piece comes first in the joined line. */
  lemma JoinPrepend(c: char, pieces: seq<string>, sep: char)
    requires |pieces| >= 1
    ensures Join([[c] + pieces[0]] + pieces[1..], sep) == [c] + Join(pieces, sep)
  {
    var longer := [[c] + pieces[0]] + pieces[1..];
    if |pieces| > 1 {
      assert longer[1..] == pieces[1..];
      var tail := Join(pieces[1..], sep);
      assert ([c] + pieces[0]) + [sep] + tail == [c] + (pieces[0] + [sep] + tail);
    }
  }

  /** No piece of a split line holds the separator. */
  lemma {:induction false} SplitSeparatorFree(s: string, sep: char)
    ensures SeparatorFree(Split(s, sep), sep)
    decreases |s|
  {
    if s != [] {
      var rest := Split(s[1..], sep);
      SplitSeparatorFree(s[1..], sep);
      if s[0] != sep {
        var pieces := Split(s, sep);
        assert sep !in pieces[0] by {
          assert pieces[0] == [s[0]] + rest[0];
        }
        assert forall k :: 1 <= k < |pieces| ==> pieces[k] == rest[k];
      }
    }
  }

  /** Joining separator-free pieces and splitting again gives the same pieces. */
  lemma {:induction false} SplitJoin(pieces: seq<string>, sep: char)
    requires |pieces| >= 1
    requires SeparatorFree(pieces, sep)
    ensures Split(Join(pieces, sep), sep) == pieces
    decreases |pieces|, |pieces[0]|
  {
    var p := pieces[0];
    if p == [] {
      if |pieces| > 1 {
        var tail := pieces[1..];
        SplitJoin(tail, sep);
        assert pieces == [[]] + tail;
        JoinEmptyFirst(tail, sep);
        SplitPrepend(sep, Join(tail, sep), sep);
      }
    } else {
      var shorter := [p[1..]] + pieces[1..];
      assert SeparatorFree(shorter, sep) by {
        assert forall c :: c in p[1..] ==> c in p;
      }
      SplitJoin(shorter, sep);
      assert p[0] != sep by { assert p[0] in p; }
      assert [p[0]] + p[1..] == p;
      assert pieces == [[p[0]] + shorter[0]] + shorter[1..];
      JoinPrepend(p[0], shorter, sep);
      SplitPrepend(p[0], Join(shorter, sep), sep);
    }
  }

  /** Splitting a line one character longer at the front. */
  lemma SplitPrepend(c: char, s: string, sep: char)
    ensures Split([c] + s, sep) ==
              if c == sep then [[]] + Split(s, sep) else [[c] + Split(s, sep)[0]] + Split(s, sep)[1..]
  {
    assert ([c] + s)[1..] == s;
  }

  // ---------------------------------------------------------------------------
  // The non-empty cleaned pieces of a frame
  // ---------------------------------------------------------------------------

  /** What one piece contributes after cleaning: itself cleaned, or nothing when it became empty. */
  function Contribution(piece: string): seq<string>
  {
    var cleaned := Deleted(piece, ' ');
    if cleaned == "" then [] else [cleaned]
  }

  /** The cleaned, non-empty pieces, in their order on the line. */
  function Fields(pieces: seq<string>): seq<string>
  {
    if pieces == [] then [] else Contribution(pieces[0]) + Fields(pieces[1..])
  }

  lemma {:induction false} FieldsAppend(a: seq<string>, b: seq<string>)
    ensures Fields(a + b) == Fields(a) + Fields(b)
    decreases |a|
  {
    if a == [] {
      assert a + b == b;
    } else {
      assert (a + b)[1..] == a[1..] + b;
      FieldsAppend(a[1..], b);
    }
  }

  /**
   * A piece that is empty once cleaned (from two tabs in a row, or made only of
   * blanks and line ends) is skipped wherever it stands: it does not advance the slot.
   */
  lemma FieldsSkipBlank(before: seq<string>, piece: string, after: seq<string>)
    requires Deleted(piece, ' ') == ""
    ensures Fields(before + [piece] + after) == Fields(before + after)
  {
    FieldsAppend(before + [piece], after);
    FieldsAppend(before, [piece]);
    FieldsAppend(before, after);
    assert Fields([piece]) == [] by {
      assert [piece][1..] == [];
    }
    assert Fields(before) + [] == Fields(before);
  }

  /** Every field is non-empty and free of blanks, carriage returns and line feeds. */
  lemma {:induction false} FieldsAreClean(pieces: seq<string>)
    ensures forall k :: 0 <= k < |Fields(pieces)| ==> Fields(pieces)[k] != "" && Clean(Fields(pieces)[k], ' ')
  {
    if pieces != [] {
      FieldsAreClean(pieces[1..]);
      DeletedIsClean(pieces[0], ' ');
    }
  }

  /** Pieces that are non-empty and clean are their own fields. */
  lemma {:induction false} FieldsOfCleanPieces(pieces: seq<string>)
    requires forall k :: 0 <= k < |pieces| ==> pieces[k] != "" && Clean(pieces[k], ' ')
    ensures Fields(pieces) == pieces
  {
    if pieces != [] {
      DeletedOfClean(pieces[0], ' ');
      FieldsOfCleanPieces(pieces[1..]);
      assert pieces == [pieces[0]] + pieces[1..];
    }
  }

  // ---------------------------------------------------------------------------
  // Decoding a frame
  // ---------------------------------------------------------------------------

  predicate AllParse(fields: seq<string>, parse: NumberParser)
  {
    forall k :: 0 <= k < |fields| ==> parse(fields[k]).Some?
  }

  /** Slot k of the buffer after the loop: the k-th field's number, or the buffer's initial 0. */
  function SlotValue(fields: seq<string>, parse: NumberParser, k: nat): real
  {
    if k < |fields| && parse(fields[k]).Some? then parse(fields[k]).value else 0.0
  }

  /**
   * The frame a list of fields decodes to. More fields than slots, or one that
   * does not parse, raises inside the loop; the handler swallows it and no
   * quantity is assigned. Fewer fields than slots leave the rest at 0.
   */
  function DecodeFields(fields: seq<string>, parse: NumberParser): Option<Reading>
  {
    if |fields| <= SlotCount && AllParse(fields, parse) then
      Some(Reading(SlotValue(fields, parse, 0), SlotValue(fields, parse, 1), SlotValue(fields, parse, 2),
                   SlotValue(fields, parse, 3), SlotValue(fields, parse, 4), SlotValue(fields, parse, 5),
                   SlotValue(fields, parse, 6)))
    else None
  }

  /** The frame one input line decodes to, or None when the loop body raised. */
  function Decode(inputData: string, parse: NumberParser): Option<Reading>
  {
    DecodeFields(Fields(Split(inputData, Tab)), parse)
  }

  /**
   * One iteration of the reader loop, up to the assignment of the quantities:
   * the line is split at the tabs and the pieces are decoded. `None` is the
   * path where the loop body raised.
   */
  method DecodeLine(inputData: string, parse: NumberParser) returns (r: Option<Reading>)
    ensures r == Decode(inputData, parse)
  {
    var pieces := Split(inputData, Tab);
    r := DecodePieces(pieces, parse);
  }

  /**
   * The pieces are cleaned in place, each non-empty one is parsed into the next
   * slot of a zeroed seven-slot buffer, and the quantities are read off by position.
   */
  method DecodePieces(pieces: seq<string>, parse: NumberParser) returns (r: Option<Reading>)
    ensures r == DecodeFields(Fields(pieces), parse)
  {
    var rawDataArray := pieces;
    var inputDataArray := new real[SlotCount](_ => 0.0);
    var j := 0;
    ghost var fields: seq<string> := [];
    for i := 0 to |rawDataArray|
      invariant |rawDataArray| == |pieces|
      invariant forall k :: i <= k < |rawDataArray| ==> rawDataArray[k] == pieces[k]
      invariant fields == Fields(pieces[..i])
      invariant j == |fields| <= SlotCount
      invariant AllParse(fields, parse)
      invariant forall k :: 0 <= k < SlotCount ==> inputDataArray[k] == SlotValue(fields, parse, k)
    {
      FieldsStep(pieces, i);
      var cleaned := DeleteChar(' ', rawDataArray[i]);
      rawDataArray := rawDataArray[i := cleaned];
      if cleaned != "" {
        var v := parse(cleaned);
        if v.None? || j == SlotCount {
          // the format or index exception, swallowed by the empty handler
          DecodeRejects(pieces, i, parse);
          return None;
        }
        SlotValueStep(fields, cleaned, parse);
        inputDataArray[j] := v.value;
        j := j + 1;
        fields := fields + [cleaned];
      }
    }
    assert pieces[..|rawDataArray|] == pieces;
    r := Some(Reading(inputDataArray[0], inputDataArray[1], inputDataArray[2], inputDataArray[3],
                      inputDataArray[4], inputDataArray[5], inputDataArray[6]));
  }

  /** Filling the next slot with a parsed field leaves the earlier slots as they were. */
  lemma SlotValueStep(fields: seq<string>, field: string, parse: NumberParser)
    requires parse(field).Some?
    ensures forall k :: k != |fields| ==> SlotValue(fields + [field], parse, k) == SlotValue(fields, parse, k)
    ensures SlotValue(fields + [field], parse, |fields|) == parse(field).value
  {
  }

  /** Taking one more piece adds that piece's contribution at the end. */
  lemma FieldsStep(pieces: seq<string>, i: nat)
    requires i < |pieces|
    ensures Fields(pieces[..i + 1]) == Fields(pieces[..i]) + Contribution(pieces[i])
  {
    assert pieces[..i + 1] == pieces[..i] + [pieces[i]];
    FieldsAppend(pieces[..i], [pieces[i]]);
  }

  /**
   * Once a piece cleans to a field that does not parse, or that would be the
   * eighth, the line is rejected whatever follows.
   */
  lemma DecodeRejects(pieces: seq<string>, i: nat, parse: NumberParser)
    requires i < |pieces| && Deleted(pieces[i], ' ') != ""
    requires parse(Deleted(pieces[i], ' ')).None? || |Fields(pieces[..i])| == SlotCount
    ensures DecodeFields(Fields(pieces), parse) == None
  {
    var f := Fields(pieces[..i]) + [Deleted(pieces[i], ' ')];
    FieldsStep(pieces, i);
    FieldsStop(pieces, i + 1);
    var all := Fields(pieces);
    assert all[|f| - 1] == Deleted(pieces[i], ' ');
    assert |all| >= |f|;
  }

  /** The fields of the line are those of a prefix of its pieces followed by those of the rest. */
  lemma {:induction false} FieldsStop(pieces: seq<string>, i: nat)
    requires i <= |pieces|
    ensures Fields(pieces) == Fields(pieces[..i]) + Fields(pieces[i..])
  {
    if i == 0 {
      assert pieces[..0] == [] && pieces[0..] == pieces;
    } else {
      var tail := pieces[1..];
      FieldsStop(tail, i - 1);
      assert pieces[..i][1..] == tail[..i - 1];
      assert pieces[i..] == tail[i - 1..];
    }
  }

  /**
   * What a decoded frame holds: the frame is accepted exactly when there are at
   * most seven fields and all parse, and then the k-th field lands in slot k,
   * with the unfilled trailing slots 0.
   */
  lemma DecodeOutcome(inputData: string, parse: NumberParser)
    ensures var fields := Fields(Split(inputData, Tab));
            Decode(inputData, parse).Some? <==> |fields| <= SlotCount && AllParse(fields, parse)
    ensures var fields := Fields(Split(inputData, Tab));
            Decode(inputData, parse).Some? ==>
              forall k :: 0 <= k < SlotCount ==>
                Slots(Decode(inputData, parse).value)[k] == (if k < |fields| then parse(fields[k]).value else 0.0)
  {
    var fields := Fields(Split(inputData, Tab));
    if |fields| <= SlotCount && AllParse(fields, parse) {
      DecodeFieldsSlots(fields, parse);
    }
  }

  /** An accepted list of fields fills slot k with its k-th number, or 0 past its end. */
  lemma DecodeFieldsSlots(fields: seq<string>, parse: NumberParser)
    requires |fields| <= SlotCount && AllParse(fields, parse)
    ensures forall k :: 0 <= k < SlotCount ==>
              Slots(DecodeFields(fields, parse).value)[k] == (if k < |fields| then parse(fields[k]).value else 0.0)
  {
    var rd := DecodeFields(fields, parse).value;
    assert Slots(rd) == [SlotValue(fields, parse, 0), SlotValue(fields, parse, 1), SlotValue(fields, parse, 2),
                         SlotValue(fields, parse, 3), SlotValue(fields, parse, 4), SlotValue(fields, parse, 5),
                         SlotValue(fields, parse, 6)];
  }

  /**
   * The wire format read back: up to seven non-empty numbers free of tabs,
   * blanks and line ends, joined by tabs, decode to those numbers in order,
   * with the slots past the last number 0.
   */
  lemma DecodeJoined(numbers: seq<string>, parse: NumberParser)
    requires 1 <= |numbers| <= SlotCount
    requires forall k :: 0 <= k < |numbers| ==> numbers[k] != "" && Clean(numbers[k], ' ')
    requires SeparatorFree(numbers, Tab)
    requires AllParse(numbers, parse)
    ensures Decode(Join(numbers, Tab), parse).Some?
    ensures forall k :: 0 <= k < SlotCount ==>
              Slots(Decode(Join(numbers, Tab), parse).value)[k] == (if k < |numbers| then parse(numbers[k]).value else 0.0)
  {
    var line := Join(numbers, Tab);
    SplitJoin(numbers, Tab);
    FieldsOfCleanPieces(numbers);
    assert Fields(Split(line, Tab)) == numbers;
    DecodeOutcome(line, parse);
  }
}
