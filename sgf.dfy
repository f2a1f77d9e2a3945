/** sgfToMoveList: reads the moves, the komi and the winner from the lines of
    an SGF (Smart Game Format) game record. Reading the file is abstracted
    as the sequence of its lines, and Kotlin's String.toFloat as the
    parameter parseKomi, whose None stands for the exception it throws. */
module Sgf {
  import opened Board

  /** A move: (piece, row, col). */
  datatype Move = Move(piece: Piece, row: int, col: int)

  /** What has been read so far: the move list, the komi and the winner. */
  datatype SgfRecord = SgfRecord(moveList: seq<Move>, komi: real, winner: Piece)

  const Initial := SgfRecord([], 0.0, Empty)

  predicate StartsWith(s: string, prefix: string)
  {
    |s| >= |prefix| && s[..|prefix|] == prefix
  }

  predicate IsBracket(ch: char)
  {
    ch == '[' || ch == ']'
  }

  /** The first index at or after `from` holding a bracket, or |s|. */
  function NextBracket(s: string, from: nat): (i: nat)
    requires from <= |s|
    decreases |s| - from
    ensures from <= i <= |s|
    ensures i < |s| ==> IsBracket(s[i])
    ensures forall k :: from <= k < i ==> !IsBracket(s[k])
  {
    if from == |s| || IsBracket(s[from]) then from else NextBracket(s, from + 1)
  }

  /** split("[", "]")[1]: the text between the first bracket and the next
      bracket (or the end); None when there is no bracket, where Kotlin
      throws IndexOutOfBoundsException. */
  function BracketText(s: string): (r: Option<string>)
    ensures r.None? <==> forall k :: 0 <= k < |s| ==> !IsBracket(s[k])
    ensures r.Some? ==> forall k :: 0 <= k < |r.value| ==> !IsBracket(r.value[k])
  {
    var i := NextBracket(s, 0);
    if i == |s| then None
    else
      var j := NextBracket(s, i + 1);
      Some(s[i + 1..j])
  }

  /** A property written `XX[t]...` gives back t, whatever follows. */
  lemma BracketTextOfProperty(name: string, t: string, rest: string)
    requires forall k :: 0 <= k < |name| ==> !IsBracket(name[k])
    requires forall k :: 0 <= k < |t| ==> !IsBracket(t[k])
    ensures BracketText(name + "[" + t + "]" + rest) == Some(t)
  {
    var s := name + "[" + t + "]" + rest;
    assert s[|name|] == '[';
    assert NextBracket(s, 0) == |name| by {
      assert forall k :: 0 <= k < |name| ==> s[k] == name[k];
    }
    assert s[|name| + 1 + |t|] == ']';
    assert NextBracket(s, |name| + 1) == |name| + 1 + |t| by {
      assert forall k :: 0 <= k < |t| ==> s[|name| + 1 + k] == t[k];
    }
    assert s[|name| + 1..|name| + 1 + |t|] == t;
  }

  /** The first index holding d, or |s|. */
  function IndexOf(s: string, d: char): (i: nat)
    ensures i <= |s| && (i < |s| ==> s[i] == d)
    ensures forall k :: 0 <= k < i ==> s[k] != d
  {
    if s == [] then 0 else if s[0] == d then 0 else 1 + IndexOf(s[1..], d)
  }

  /** Kotlin's split(d): the pieces between occurrences of d, empty ones
      included. */
  function Split(s: string, d: char): (r: seq<string>)
    decreases |s|
    ensures |r| > 0
    ensures forall i, k :: 0 <= i < |r| && 0 <= k < |r[i]| ==> r[i][k] != d
  {
    var i := IndexOf(s, d);
    if i == |s| then [s]
    else [s[..i]] + Split(s[i + 1..], d)
  }

  function Join(parts: seq<string>, d: char): string
    requires |parts| > 0
  {
    if |parts| == 1 then parts[0] else parts[0] + [d] + Join(parts[1..], d)
  }

  /** Splitting loses nothing: joining the pieces with d gives the line back. */
  lemma {:induction false} SplitJoin(s: string, d: char)
    decreases |s|
    ensures Join(Split(s, d), d) == s
  {
    var i := IndexOf(s, d);
    if i < |s| {
      SplitJoin(s[i + 1..], d);
      assert s == s[..i] + [d] + s[i + 1..];
    }
  }

  /** The player of a move or result letter. */
  function PieceOf(ch: char): (p: Piece)
    ensures p == Player1 <==> ch == 'B'
    ensures p == Player2 <==> ch == 'W'
  {
    if ch == 'B' then Player1 else if ch == 'W' then Player2 else Empty
  }

  /** One ';'-separated segment: a move when it is longer than four
      characters and starts with B or W; its row is the third character and
      its column the fourth, each less 97 (the code of 'a'). */
  function MoveOfSegment(move: string): (r: seq<Move>)
    ensures |r| <= 1
    ensures |r| == 1 <==> |move| > 4 && (move[0] == 'W' || move[0] == 'B')
    ensures |r| == 1 ==> r[0].piece != Empty
  {
    if |move| > 4 && (move[0] == 'W' || move[0] == 'B') then
      [Move(PieceOf(move[0]), (move[2] as int) - 97, (move[3] as int) - 97)]
    else []
  }

  /** The moves of the segments, in segment order. */
  function MovesOfSegments(segments: seq<string>): seq<Move>
  {
    if segments == [] then []
    else MovesOfSegments(segments[..|segments| - 1]) + MoveOfSegment(segments[|segments| - 1])
  }

  /** A move node `;B[xy]` decodes to (PLAYER1, x - 'a', y - 'a') for the
      first two letters; 'a'..'s' give 0..18. */
  lemma PointDecoding(colour: char, x: char, y: char, rest: string)
    requires colour == 'B' || colour == 'W'
    ensures MoveOfSegment([colour, '[', x, y, ']'] + rest) ==
              [Move(PieceOf(colour), (x as int) - ('a' as int), (y as int) - ('a' as int))]
    ensures 'a' <= x <= 's' && 'a' <= y <= 's' ==>
              InBounds(19, Coord((x as int) - ('a' as int), (y as int) - ('a' as int)))
  {
  }

  /** A pass written B[] or W[] gives no move. */
  lemma PassGivesNoMove(colour: char)
    ensures MoveOfSegment([colour, '[', ']']) == []
  {
  }

  /** The line raises an exception: a KM line whose text is missing or not
      a number, or an RE line whose text is missing or empty. */
  predicate Raises(line: string, parseKomi: string -> Option<real>)
  {
    (StartsWith(line, "KM") &&
      (BracketText(line).None? || parseKomi(BracketText(line).value).None?)) ||
    (StartsWith(line, "RE") &&
      (BracketText(line).None? || |BracketText(line).value| == 0))
  }

  /** One line's effect on the record, when it raises nothing. */
  function LineStep(acc: SgfRecord, line: string, parseKomi: string -> Option<real>): SgfRecord
    requires !Raises(line, parseKomi)
  {
    var afterKomi :=
      if StartsWith(line, "KM") then acc.(komi := parseKomi(BracketText(line).value).value) else acc;
    var afterResult :=
      if StartsWith(line, "RE") then afterKomi.(winner := PieceOf(BracketText(line).value[0])) else afterKomi;
    if StartsWith(line, ";") then afterResult.(moveList := afterResult.moveList + MovesOfSegments(Split(line, ';')))
    else afterResult
  }

  /** The record after reading `lines` from `acc`: every line in turn until
      one raises; that line's change is lost and reading stops. */
  function SgfFrom(acc: SgfRecord, lines: seq<string>, parseKomi: string -> Option<real>): SgfRecord
    decreases |lines|
  {
    if lines == [] then acc
    else if Raises(lines[0], parseKomi) then acc
    else SgfFrom(LineStep(acc, lines[0], parseKomi), lines[1..], parseKomi)
  }

  /** The segment loop of a move line: each segment longer than four
      characters that starts with B or W appends its move, in order. */
  method AppendMoves(moveList: seq<Move>, moves: seq<string>) returns (r: seq<Move>)
    ensures r == moveList + MovesOfSegments(moves)
  {
    r := moveList;
    var j := 0;
    while j < |moves|
      invariant 0 <= j <= |moves|
      invariant r == moveList + MovesOfSegments(moves[..j])
    {
      var move := moves[j];
      assert moves[..j + 1][..j] == moves[..j];
      assert MovesOfSegments(moves[..j + 1]) == MovesOfSegments(moves[..j]) + MoveOfSegment(move);
      if |move| > 4 && (move[0] == 'W' || move[0] == 'B') {
        var piece := if move[0] == 'B' then Player1 else if move[0] == 'W' then Player2 else Empty;
        var row := (move[2] as int) - 97;
        var col := (move[3] as int) - 97;
        r := r + [Move(piece, row, col)];
      }
      j := j + 1;
    }
    assert moves[..|moves|] == moves;
  }

  /** The body of the reading loop for a line that raises nothing: a KM
      line sets the komi, an RE line the winner, and a ';' line appends the
      moves of its segments in order. */
  method ReadLine(line: string, parseKomi: string -> Option<real>, acc: SgfRecord) returns (r: SgfRecord)
    requires !Raises(line, parseKomi)
    ensures r == LineStep(acc, line, parseKomi)
  {
    var moveList, komi, winner := acc.moveList, acc.komi, acc.winner;
    if StartsWith(line, "KM") {
      komi := parseKomi(BracketText(line).value).value;
    }
    if StartsWith(line, "RE") {
      var result := BracketText(line).value;
      winner := if result[0] == 'B' then Player1 else if result[0] == 'W' then Player2 else Empty;
    }
    if StartsWith(line, ";") {
      moveList := AppendMoves(moveList, Split(line, ';'));
    }
    r := SgfRecord(moveList, komi, winner);
  }

  /** sgfToMoveList over the file's lines: every line in turn until one
      raises, whose exception is caught and ends the reading. */
  method SgfToMoveList(lines: seq<string>, parseKomi: string -> Option<real>)
    returns (moveList: seq<Move>, komi: real, winner: Piece)
    ensures SgfRecord(moveList, komi, winner) == SgfFrom(Initial, lines, parseKomi)
  {
    moveList := [];
    komi := 0.0;
    winner := Empty;
    var i := 0;
    var failed := false;
    while i < |lines| && !failed
      invariant 0 <= i <= |lines|
      invariant !failed ==> SgfFrom(SgfRecord(moveList, komi, winner), lines[i..], parseKomi) == SgfFrom(Initial, lines, parseKomi)
      invariant failed ==> SgfRecord(moveList, komi, winner) == SgfFrom(Initial, lines, parseKomi)
      decreases |lines| - i, if failed then 0 else 1
    {
      var line := lines[i];
      assert lines[i..][0] == line && lines[i..][1..] == lines[i + 1..];
      if Raises(line, parseKomi) {
        // the exception ends the reading; nothing of this line is kept
        failed := true;
      } else {
        var r := ReadLine(line, parseKomi, SgfRecord(moveList, komi, winner));
        moveList, komi, winner := r.moveList, r.komi, r.winner;
        i := i + 1;
      }
    }
    if !failed {
      assert lines[i..] == [];
    }
  }

  // ---------------------------------------------------------------------
  // Properties of the reader

  /** Lines that are neither KM, RE nor move lines leave the record as it
      was; with only such lines the result is no moves, komi 0, winner
      EMPTY. */
  lemma {:induction false} IrrelevantLinesKeepRecord(acc: SgfRecord, lines: seq<string>, parseKomi: string -> Option<real>)
    requires forall i :: 0 <= i < |lines| ==>
               !StartsWith(lines[i], "KM") && !StartsWith(lines[i], "RE") && !StartsWith(lines[i], ";")
    ensures SgfFrom(acc, lines, parseKomi) == acc
  {
    if lines != [] {
      IrrelevantLinesKeepRecord(acc, lines[1..], parseKomi);
    }
  }

  /** An RE line sets the winner from the first letter of its text,
      replacing whatever an earlier RE line set. */
  lemma ResultLineSetsWinner(acc: SgfRecord, t: string, rest: string, parseKomi: string -> Option<real>)
    requires |t| > 0 && forall k :: 0 <= k < |t| ==> !IsBracket(t[k])
    ensures !Raises("RE[" + t + "]" + rest, parseKomi)
    ensures LineStep(acc, "RE[" + t + "]" + rest, parseKomi) ==
              acc.(winner := if t[0] == 'B' then Player1 else if t[0] == 'W' then Player2 else Empty)
  {
    var line := "RE[" + t + "]" + rest;
    BracketTextOfProperty("RE", t, rest);
    assert line == "RE" + "[" + t + "]" + rest;
    assert StartsWith(line, "RE") && !StartsWith(line, "KM") && !StartsWith(line, ";");
  }

  /** An RE line with empty text raises: reading stops there. */
  lemma EmptyResultStops(acc: SgfRecord, rest: string, more: seq<string>, parseKomi: string -> Option<real>)
    ensures SgfFrom(acc, ["RE[]" + rest] + more, parseKomi) == acc
  {
    var line := "RE[]" + rest;
    BracketTextOfProperty("RE", "", rest);
    assert line == "RE" + "[" + "" + "]" + rest;
    assert StartsWith(line, "RE");
    assert (["RE[]" + rest] + more)[0] == line;
  }

  /** Reading A then B is reading A and continuing with B, as long as no
      line of A raises: lines are taken in order. */
  lemma {:induction false} ReadInOrder(acc: SgfRecord, A: seq<string>, B: seq<string>, parseKomi: string -> Option<real>)
    requires forall i :: 0 <= i < |A| ==> !Raises(A[i], parseKomi)
    decreases |A|
    ensures SgfFrom(acc, A + B, parseKomi) == SgfFrom(SgfFrom(acc, A, parseKomi), B, parseKomi)
  {
    if A != [] {
      assert (A + B)[0] == A[0] && (A + B)[1..] == A[1..] + B;
      assert !Raises(A[0], parseKomi);
      var next := LineStep(acc, A[0], parseKomi);
      assert SgfFrom(acc, A, parseKomi) == SgfFrom(next, A[1..], parseKomi);
      assert SgfFrom(acc, A + B, parseKomi) == SgfFrom(next, A[1..] + B, parseKomi);
      ReadInOrder(next, A[1..], B, parseKomi);
    } else {
      assert A + B == B;
    }
  }

  /** A raising line ends the reading: what was gathered before it is the
      result, whatever follows. */
  lemma RaisingLineStops(acc: SgfRecord, A: seq<string>, bad: string, B: seq<string>, parseKomi: string -> Option<real>)
    requires forall i :: 0 <= i < |A| ==> !Raises(A[i], parseKomi)
    requires Raises(bad, parseKomi)
    ensures SgfFrom(acc, A + [bad] + B, parseKomi) == SgfFrom(acc, A, parseKomi)
  {
    ReadInOrder(acc, A, [bad] + B, parseKomi);
    assert A + [bad] + B == A + ([bad] + B);
  }

  /** Moves only ever grow: every move gathered earlier stays, in front. */
  lemma {:induction false} MovesOnlyAppended(acc: SgfRecord, lines: seq<string>, parseKomi: string -> Option<real>)
    decreases |lines|
    ensures acc.moveList <= SgfFrom(acc, lines, parseKomi).moveList
  {
    if lines != [] && !Raises(lines[0], parseKomi) {
      MovesOnlyAppended(LineStep(acc, lines[0], parseKomi), lines[1..], parseKomi);
    }
  }
}
