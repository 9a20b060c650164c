/**
 * The draw rules: stalemate, insufficient material, the fifty-move rule,
 * threefold repetition over a canonical board string, the six-ply perpetual
 * check heuristic and the agreed-draw placeholder.
 */
module Draw {
  import opened Types
  import opened Boards
  import opened Pseudo
  import opened Check
  import opened Strings
  import opened Seqs

  // ---------------------------------------------------------------- stalemate

  /** Not in check, and no piece of `color` has a legal move (en passant not considered). */
  predicate IsStalemate(color: Color, board: seq<Piece>)
  {
    !InCheck(color, board)
    && forall p :: p in board && p.color == color ==> |LegalMoves(p, board, None)| == 0
  }

  /** No piece of `color` has a legal move. */
  predicate NoLegalMove(color: Color, board: seq<Piece>)
  {
    forall p :: p in board && p.color == color ==> LegalMoves(p, board, None) == []
  }

  /**
   * A side without a legal move is checkmated when in check and stalemated
   * otherwise, and never both.
   */
  lemma NoLegalMoveIsMateOrStalemate(color: Color, board: seq<Piece>)
    ensures NoLegalMove(color, board) <==> IsCheckmate(color, board) || IsStalemate(color, board)
    ensures !(IsCheckmate(color, board) && IsStalemate(color, board))
  {
    CheckmateIffNoLegalMove(color, board);
  }

  // ---------------------------------------------------------------- insufficient material

  /** The pieces other than kings, in board order. */
  function NonKings(board: seq<Piece>): (rest: seq<Piece>)
    ensures forall p :: multiset(rest)[p] == if p.kind == King then 0 else multiset(board)[p]
  {
    if |board| == 0 then []
    else
      assert board == [board[0]] + board[1..];
      (if board[0].kind == King then [] else [board[0]]) + NonKings(board[1..])
  }

  function Bishops(pieces: seq<Piece>): seq<Piece>
  {
    if |pieces| == 0 then []
    else (if pieces[0].kind == Bishop then [pieces[0]] else []) + Bishops(pieces[1..])
  }

  /**
   * Drawn by material: kings only; kings and one bishop or knight; or kings and
   * exactly two bishops whose piece colours differ (the colour of the squares
   * they stand on is not examined).
   */
  predicate IsInsufficientMaterial(board: seq<Piece>)
  {
    InsufficientAmong(NonKings(board))
  }

  /** The three tests, in order, on the non-king pieces. */
  predicate InsufficientAmong(pieces: seq<Piece>)
  {
    if |pieces| == 0 then true
    else if |pieces| == 1 && (pieces[0].kind == Bishop || pieces[0].kind == Knight) then true
    else if |pieces| == 2 && (var bishops := Bishops(pieces); |bishops| == 2 && bishops[0].color != bishops[1].color) then true
    else false
  }

  /** Exactly one piece, a bishop or a knight. */
  ghost predicate LoneMinor(m: multiset<Piece>)
  {
    exists p :: m == multiset{p} && (p.kind == Bishop || p.kind == Knight)
  }

  /** Exactly two pieces, both bishops, of different piece colours. */
  ghost predicate OppositeBishops(m: multiset<Piece>)
  {
    exists p, q :: m == multiset{p, q} && p.kind == Bishop && q.kind == Bishop && p.color != q.color
  }

  /** The same three cases, stated on the collection of non-king pieces regardless of order. */
  ghost predicate InsufficientMaterialOf(m: multiset<Piece>)
  {
    |m| == 0 || LoneMinor(m) || OppositeBishops(m)
  }

  lemma InsufficientMaterialByMaterial(board: seq<Piece>)
    ensures IsInsufficientMaterial(board) <==> InsufficientMaterialOf(multiset(NonKings(board)))
  {
    InsufficientAmongByMaterial(NonKings(board));
  }

  lemma InsufficientAmongByMaterial(pieces: seq<Piece>)
    ensures InsufficientAmong(pieces) <==> InsufficientMaterialOf(multiset(pieces))
  {
    var m := multiset(pieces);
    assert |m| == |pieces|;
    if |pieces| == 1 {
      assert m == multiset{pieces[0]} by {
        assert pieces == [pieces[0]];
      }
      LoneMinorOfOne(pieces[0]);
      assert !OppositeBishops(m);
    } else if |pieces| == 2 {
      assert m == multiset{pieces[0], pieces[1]} by {
        assert pieces == [pieces[0]] + [pieces[1]];
      }
      BishopsOfTwo(pieces);
      OppositeBishopsOfTwo(pieces[0], pieces[1]);
      assert !LoneMinor(m);
    } else if |pieces| > 2 {
      assert !LoneMinor(m) && !OppositeBishops(m);
    }
  }

  lemma LoneMinorOfOne(a: Piece)
    ensures LoneMinor(multiset{a}) <==> a.kind == Bishop || a.kind == Knight
  {
    if LoneMinor(multiset{a}) {
      var p :| multiset{a} == multiset{p} && (p.kind == Bishop || p.kind == Knight);
      assert p in multiset{a};
    }
  }

  lemma BishopsOfTwo(pieces: seq<Piece>)
    requires |pieces| == 2
    ensures |Bishops(pieces)| == 2 <==> pieces[0].kind == Bishop && pieces[1].kind == Bishop
    ensures |Bishops(pieces)| == 2 ==> Bishops(pieces) == pieces
  {
    var tail := pieces[1..];
    assert tail[1..] == [];
    assert Bishops(tail) == if tail[0].kind == Bishop then [tail[0]] else [];
    assert pieces == [pieces[0]] + tail;
  }

  lemma OppositeBishopsOfTwo(a: Piece, b: Piece)
    ensures OppositeBishops(multiset{a, b}) <==> a.kind == Bishop && b.kind == Bishop && a.color != b.color
  {
    var m := multiset{a, b};
    if OppositeBishops(m) {
      var p, q :| m == multiset{p, q} && p.kind == Bishop && q.kind == Bishop && p.color != q.color;
      assert p in m && q in m && a in multiset{p, q} && b in multiset{p, q};
      assert p != q;
    }
  }

  /** Reordering the board does not change the verdict. */
  lemma InsufficientMaterialOrderFree(b1: seq<Piece>, b2: seq<Piece>)
    requires multiset(b1) == multiset(b2)
    ensures IsInsufficientMaterial(b1) == IsInsufficientMaterial(b2)
  {
    assert multiset(NonKings(b1)) == multiset(NonKings(b2));
    InsufficientMaterialByMaterial(b1);
    InsufficientMaterialByMaterial(b2);
  }

  // ---------------------------------------------------------------- fifty-move rule

  /** One hundred half-moves without a pawn move or capture. */
  predicate IsFiftyMoveRule(halfmoveClock: int)
  {
    halfmoveClock >= 100
  }

  // ---------------------------------------------------------------- board key

  /** The first letter of the kind's name; king and knight both give 'k'. */
  function KindInitial(k: PieceType): char
  {
    match k
    case Pawn => 'p'
    case Rook => 'r'
    case Knight => 'k'
    case Bishop => 'b'
    case Queen => 'q'
    case King => 'k'
  }

  function ColorInitial(c: Color): char
  {
    if c == White then 'w' else 'b'
  }

  /** Kind initial, colour initial, row, column. */
  function Token(p: Piece): string
  {
    [KindInitial(p.kind), ColorInitial(p.color)] + IntToString(p.row) + IntToString(p.col)
  }

  /** The tokens of all pieces, sorted and joined. */
  function Serialize(board: seq<Piece>): string
  {
    Concat(Sort(Map(Token, board)))
  }

  /** The key depends only on which pieces are on the board, not on the order of the list. */
  lemma SerializeOrderFree(b1: seq<Piece>, b2: seq<Piece>)
    requires multiset(b1) == multiset(b2)
    ensures Serialize(b1) == Serialize(b2)
  {
    MapMultiset(Token, b1, b2);
    SortPermutationInvariant(Map(Token, b1), Map(Token, b2));
  }

  /** Turning a king into a knight of the same colour on the same square leaves the key unchanged. */
  lemma KingAndKnightShareKey(board: seq<Piece>, i: int)
    requires 0 <= i < |board| && board[i].kind == King
    ensures Serialize(board[i := board[i].(kind := Knight)]) == Serialize(board)
  {
    assert Map(Token, board[i := board[i].(kind := Knight)]) == Map(Token, board);
  }

  // ---------------------------------------------------------------- threefold repetition

  /** The key of one recorded position. */
  function PositionKey(entry: HistoryEntry): string
  {
    Serialize(entry.board)
  }

  /** The key of every recorded position, oldest first. */
  function Keys(history: seq<HistoryEntry>): seq<string>
  {
    Map(PositionKey, history)
  }

  /** Some key occurs at least three times. */
  predicate RepeatedThrice(keys: seq<string>)
  {
    exists k :: k in keys && multiset(keys)[k] >= 3
  }

  /**
   * Counts the keys of the history in a dictionary, oldest first, and answers
   * true as soon as one count reaches three; the early answer is the answer a
   * full count gives.
   */
  method IsThreefoldRepetition(history: seq<HistoryEntry>) returns (repeated: bool)
    ensures repeated <==> RepeatedThrice(Keys(history))
  {
    ghost var keys := Keys(history);
    var positions: map<string, nat> := map[];
    var i := 0;
    while i < |history|
      invariant 0 <= i <= |history|
      invariant Tally(positions, keys[..i])
      invariant AllBelow(keys[..i], 3)
    {
      var key := PositionKey(history[i]);
      TallyStep(positions, keys, i);
      var count := (if key in positions then positions[key] else 0) + 1;
      positions := positions[key := count];
      if count >= 3 {
        ThriceInPrefix(keys, i + 1, key);
        return true;
      }
      AllBelowStep(keys, i, 3);
      i := i + 1;
    }
    assert keys[..i] == keys;
    NotThriceWhenAllBelow(keys);
    return false;
  }

  /** Three copies of k in a prefix are a threefold repetition of the whole list. */
  lemma ThriceInPrefix(keys: seq<string>, n: int, k: string)
    requires 0 <= n <= |keys| && multiset(keys[..n])[k] >= 3
    ensures RepeatedThrice(keys)
  {
    PrefixWithin(keys, n);
    assert k in multiset(keys);
  }

  /** When no position reaches three copies there is no repetition. */
  lemma NotThriceWhenAllBelow(keys: seq<string>)
    requires AllBelow(keys, 3)
    ensures !RepeatedThrice(keys)
  {
  }

  /** Recording more positions never undoes a repetition. */
  lemma RepetitionPersists(history: seq<HistoryEntry>, later: seq<HistoryEntry>)
    requires RepeatedThrice(Keys(history))
    ensures RepeatedThrice(Keys(history + later))
  {
    MapAppend(PositionKey, history, later);
    RepeatedThriceAppend(Keys(history), Keys(later));
  }

  lemma RepeatedThriceAppend(keys: seq<string>, more: seq<string>)
    requires RepeatedThrice(keys)
    ensures RepeatedThrice(keys + more)
  {
    var k :| k in keys && multiset(keys)[k] >= 3;
    assert multiset(keys + more) == multiset(keys) + multiset(more);
    assert k in keys + more;
  }

  /** x occurs at three different positions of the list. */
  predicate AtThreePlaces(keys: seq<string>, x: string)
  {
    exists i, j, k :: 0 <= i < j < k < |keys| && keys[i] == x && keys[j] == x && keys[k] == x
  }

  /** A count of three is the same as three distinct occurrences. */
  lemma RepeatedThriceByPlaces(keys: seq<string>)
    ensures RepeatedThrice(keys) <==> exists x :: AtThreePlaces(keys, x)
  {
    if RepeatedThrice(keys) {
      var x :| x in keys && multiset(keys)[x] >= 3;
      CountAtLeast(keys, x, 3);
      var ps := Positions(keys, x);
      assert ps[0] < ps[1] < ps[2] && keys[ps[0]] == x && keys[ps[1]] == x && keys[ps[2]] == x;
      assert AtThreePlaces(keys, x);
    }
    if exists x :: AtThreePlaces(keys, x) {
      var x :| AtThreePlaces(keys, x);
      var i, j, k :| 0 <= i < j < k < |keys| && keys[i] == x && keys[j] == x && keys[k] == x;
      ThreePlacesCount(keys, x, i, j, k);
      assert x in keys;
    }
  }

  /** The number of occurrences of x, counted from the end of the list. */
  lemma {:induction false} CountAtLeast(keys: seq<string>, x: string, n: nat)
    requires multiset(keys)[x] >= n
    ensures |Positions(keys, x)| >= n
  {
    PositionsCount(keys, x);
  }

  /** The indices holding x, in increasing order. */
  function Positions(keys: seq<string>, x: string): (ps: seq<int>)
    ensures forall t :: 0 <= t < |ps| ==> 0 <= ps[t] < |keys| && keys[ps[t]] == x
    ensures forall s, t :: 0 <= s < t < |ps| ==> ps[s] < ps[t]
  {
    if |keys| == 0 then []
    else Positions(keys[..|keys| - 1], x) + (if keys[|keys| - 1] == x then [|keys| - 1] else [])
  }

  lemma {:induction false} PositionsCount(keys: seq<string>, x: string)
    ensures |Positions(keys, x)| == multiset(keys)[x]
  {
    if |keys| > 0 {
      var front := keys[..|keys| - 1];
      PositionsCount(front, x);
      assert keys == front + [keys[|keys| - 1]];
    }
  }

  lemma ThreePlacesCount(keys: seq<string>, x: string, i: int, j: int, k: int)
    requires 0 <= i < j < k < |keys| && keys[i] == x && keys[j] == x && keys[k] == x
    ensures multiset(keys)[x] >= 3
  {
    assert keys == keys[..i] + [x] + keys[i + 1..j] + [x] + keys[j + 1..k] + [x] + keys[k + 1..];
  }

  // ---------------------------------------------------------------- perpetual check

  /** The last six entries, or all of them when there are fewer (a slice from -6). */
  function LastSix(history: seq<HistoryEntry>): (last: seq<HistoryEntry>)
    ensures |last| == if |history| < 6 then |history| else 6
    ensures last == history[|history| - |last|..]
  {
    if |history| <= 6 then history else history[|history| - 6..]
  }

  /**
   * At least six entries, and in each of the last six the side not on turn is
   * in check. The colour argument is not used.
   */
  predicate IsPerpetualCheck(color: Color, history: seq<HistoryEntry>)
  {
    var last := LastSix(history);
    if |last| < 6 then false
    else forall e :: e in last ==> InCheck(Opponent(e.turn), e.board)
  }

  lemma PerpetualCheckByIndex(color: Color, history: seq<HistoryEntry>)
    ensures IsPerpetualCheck(color, history) <==>
              |history| >= 6
              && forall i :: |history| - 6 <= i < |history| ==> InCheck(Opponent(history[i].turn), history[i].board)
    ensures IsPerpetualCheck(color, history) == IsPerpetualCheck(Opponent(color), history)
  {
    if |history| >= 6 {
      var last := LastSix(history);
      assert forall i :: |history| - 6 <= i < |history| ==> history[i] == last[i - (|history| - 6)];
      assert forall e :: e in last ==> exists i :: |history| - 6 <= i < |history| && history[i] == e;
    }
  }

  /** Older entries in front of six or more do not change the verdict. */
  lemma PerpetualCheckIgnoresOlder(color: Color, older: seq<HistoryEntry>, history: seq<HistoryEntry>)
    requires |history| >= 6
    ensures IsPerpetualCheck(color, older + history) == IsPerpetualCheck(color, history)
  {
    assert LastSix(older + history) == LastSix(history);
  }

  // ---------------------------------------------------------------- agreed draw

  /** A placeholder: agreement is handled by the game screen, never here. */
  function IsAgreedDraw(): (agreed: bool)
    ensures !agreed
  {
    false
  }
}
