/** Day 22: the card game Combat and its recursive variant. Each round both
    players draw their top card; the owner of the winning card puts it
    under their deck, then the losing card. In the recursive game a round is
    decided by a sub-game on copies of the top cards when both players hold
    at least as many cards as the value they drew, and a repeated deck ends
    the game in favour of player 1. */
module Day22 {
  import opened Text

  /** The state of the line loop of `parse`: whether the blank line after
      player 1's cards was seen, and the cards read so far. */
  datatype ParseState = ParseState(player1Done: bool, player1: seq<nat>, player2: seq<nat>)

  const Start: ParseState := ParseState(false, [], [])

  /** `line.starts_with("Player")`. */
  predicate IsHeader(line: string)
  {
    |line| >= 6 && line[..6] == "Player"
  }

  /** One line of `parse`: headers are skipped, the blank line switches to
      player 2, and any other line is a card, where `unwrap` panics if it is
      not a number. */
  function ReadLine(st: ParseState, line: string): Option<ParseState>
  {
    if IsHeader(line) then Some(st)
    else if line == [] then Some(st.(player1Done := true))
    else
      match ParseNat(line)
      case None => None
      case Some(c) =>
        if st.player1Done then Some(st.(player2 := st.player2 + [c]))
        else Some(st.(player1 := st.player1 + [c]))
  }

  /** The line loop of `parse` over the first lines. */
  function ReadLines(lines: seq<string>): Option<ParseState>
  {
    if lines == [] then Some(Start)
    else
      match ReadLines(lines[..|lines| - 1])
      case None => None
      case Some(st) => ReadLine(st, lines[|lines| - 1])
  }

  /** What `parse` returns for a whole input. */
  function Decks(input: string): Option<(seq<nat>, seq<nat>)>
  {
    match ReadLines(Lines(input))
    case None => None
    case Some(st) => Some((st.player1, st.player2))
  }

  /** `parse`: read the input line by line. */
  method Parse(input: string) returns (r: Option<(seq<nat>, seq<nat>)>)
    ensures r == Decks(input)
  {
    var st := ParseLines(Lines(input));
    r := if st.None? then None else Some((st.value.player1, st.value.player2));
  }

  /** The line loop of `parse`. */
  method ParseLines(lines: seq<string>) returns (r: Option<ParseState>)
    ensures r == ReadLines(lines)
  {
    var player1: seq<nat> := [];
    var player2: seq<nat> := [];
    var player1Done := false;
    for i := 0 to |lines|
      invariant ReadLines(lines[..i]) == Some(ParseState(player1Done, player1, player2))
    {
      ReadLinesSnoc(lines[..i], lines[i]);
      assert lines[..i] + [lines[i]] == lines[..i + 1];
      var ok;
      ok, player1Done, player1, player2 := ParseLine(lines[i], player1Done, player1, player2);
      if !ok {
        ReadLinesFail(lines, i + 1);
        return None;
      }
    }
    assert lines[..|lines|] == lines;
    r := Some(ParseState(player1Done, player1, player2));
  }

  /** The body of the line loop of `parse`; `ok` is false where `unwrap` panics. */
  method ParseLine(line: string, player1Done: bool, player1: seq<nat>, player2: seq<nat>)
    returns (ok: bool, player1Done': bool, player1': seq<nat>, player2': seq<nat>)
    ensures var r := ReadLine(ParseState(player1Done, player1, player2), line);
      if ok then r == Some(ParseState(player1Done', player1', player2')) else r.None?
  {
    ok, player1Done', player1', player2' := true, player1Done, player1, player2;
    if !IsHeader(line) {
      if line == [] {
        player1Done' := true;
      } else {
        var c := ParseNat(line);
        if c.None? {
          ok := false;
        } else if player1Done {
          player2' := player2 + [c.value];
        } else {
          player1' := player1 + [c.value];
        }
      }
    }
  }

  /** The cards of a deck, one per line. */
  function CardLines(deck: seq<nat>): (r: seq<string>)
    ensures |r| == |deck| && forall i :: 0 <= i < |r| ==> r[i] == ShowNat(deck[i])
  {
    if deck == [] then [] else CardLines(deck[..|deck| - 1]) + [ShowNat(deck[|deck| - 1])]
  }

  /** An input file in the puzzle's layout. */
  function ShowLines(deck1: seq<nat>, deck2: seq<nat>): seq<string>
  {
    ["Player 1:"] + CardLines(deck1) + [""] + ["Player 2:"] + CardLines(deck2)
  }

  function Show(deck1: seq<nat>, deck2: seq<nat>): string
  {
    Join(ShowLines(deck1, deck2) + [""], '\n')
  }

  /** The loop of `parse` reads one line more. */
  lemma ReadLinesSnoc(lines: seq<string>, line: string)
    ensures ReadLines(lines + [line]) ==
      match ReadLines(lines)
      case None => None
      case Some(st) => ReadLine(st, line)
  {
    assert (lines + [line])[..|lines|] == lines;
  }

  /** Cards appended to the deck lines are currently filling. */
  function AddCards(st: ParseState, cards: seq<nat>): ParseState
  {
    if st.player1Done then st.(player2 := st.player2 + cards) else st.(player1 := st.player1 + cards)
  }

  lemma AddCardsSnoc(st: ParseState, cards: seq<nat>, c: nat)
    ensures AddCards(AddCards(st, cards), [c]) == AddCards(st, cards + [c])
  {
    assert st.player1 + cards + [c] == st.player1 + (cards + [c]);
    assert st.player2 + cards + [c] == st.player2 + (cards + [c]);
  }

  /** A card line is read as that card. */
  lemma ReadCard(st: ParseState, c: nat)
    ensures ReadLine(st, ShowNat(c)) == Some(AddCards(st, [c]))
  {
    var s := ShowNat(c);
    ParseShowNat(c);
    assert IsDigit(s[0]);
    assert !IsHeader(s) by {
      if |s| >= 6 {
        assert s[..6][0] == s[0];
      }
    }
  }

  /** Card lines append their cards to the current player's deck. */
  lemma {:induction false} ReadCards(pre: seq<string>, st: ParseState, deck: seq<nat>)
    requires ReadLines(pre) == Some(st)
    ensures ReadLines(pre + CardLines(deck)) == Some(AddCards(st, deck))
  {
    if deck == [] {
      assert pre + CardLines(deck) == pre;
      assert st.player1 + deck == st.player1 && st.player2 + deck == st.player2;
    } else {
      var init := deck[..|deck| - 1];
      var c := deck[|deck| - 1];
      assert init + [c] == deck;
      ReadCards(pre, st, init);
      assert CardLines(deck) == CardLines(init) + [ShowNat(c)];
      assert pre + CardLines(deck) == (pre + CardLines(init)) + [ShowNat(c)];
      ReadLinesSnoc(pre + CardLines(init), ShowNat(c));
      ReadCard(AddCards(st, init), c);
      AddCardsSnoc(st, init, c);
    }
  }

  /** Player 1's header, cards and the blank line after them. */
  lemma ReadPlayer1(deck1: seq<nat>)
    ensures ReadLines(["Player 1:"] + CardLines(deck1) + [""]) == Some(ParseState(true, deck1, []))
  {
    var h1 := ["Player 1:"];
    ReadLinesSnoc([], "Player 1:");
    assert [] + h1 == h1;
    assert IsHeader("Player 1:");
    ReadCards(h1, Start, deck1);
    assert [] + deck1 == deck1;
    ReadLinesSnoc(h1 + CardLines(deck1), "");
  }

  /** The lines of an input file read back as the two decks. */
  lemma ReadShowLines(deck1: seq<nat>, deck2: seq<nat>)
    ensures ReadLines(ShowLines(deck1, deck2)) == Some(ParseState(true, deck1, deck2))
  {
    var b := ["Player 1:"] + CardLines(deck1) + [""];
    ReadPlayer1(deck1);
    ReadLinesSnoc(b, "Player 2:");
    assert IsHeader("Player 2:");
    var c := b + ["Player 2:"];
    ReadCards(c, ParseState(true, deck1, []), deck2);
    assert [] + deck2 == deck2;
    assert c + CardLines(deck2) == ShowLines(deck1, deck2);
  }

  /** Once a line fails to parse, `parse` fails. */
  lemma {:induction false} ReadLinesFail(lines: seq<string>, i: nat)
    requires i <= |lines| && ReadLines(lines[..i]) == None
    decreases |lines| - i
    ensures ReadLines(lines) == None
  {
    if i == |lines| {
      assert lines[..i] == lines;
    } else {
      ReadLinesSnoc(lines[..i], lines[i]);
      assert lines[..i] + [lines[i]] == lines[..i + 1];
      ReadLinesFail(lines, i + 1);
    }
  }

  /** `parse` reads back a written input. */
  lemma ParseShow(deck1: seq<nat>, deck2: seq<nat>)
    ensures Decks(Show(deck1, deck2)) == Some((deck1, deck2))
  {
    var lines := ShowLines(deck1, deck2);
    var pieces := lines + [""];
    forall i | 0 <= i < |pieces| ensures '\n' !in pieces[i] {
      if 1 <= i < |deck1| + 1 {
        assert pieces[i] == ShowNat(deck1[i - 1]);
        assert AllDigits(pieces[i]);
      } else if |deck1| + 3 <= i < |lines| {
        assert pieces[i] == ShowNat(deck2[i - |deck1| - 3]);
        assert AllDigits(pieces[i]);
      }
    }
    SplitJoin(pieces, '\n');
    var s := Show(deck1, deck2);
    assert s == pieces[0] + ['\n'] + Join(pieces[1..], '\n');
    assert Lines(s) == lines;
    ReadShowLines(deck1, deck2);
  }

  /** The deck read from the bottom. */
  function Reverse(s: seq<nat>): (r: seq<nat>)
    ensures |r| == |s| && forall i :: 0 <= i < |s| ==> r[i] == s[|s| - 1 - i]
  {
    if s == [] then [] else Reverse(s[1..]) + [s[0]]
  }

  /** `enumerate().map(|(i, c)| (i + 1) * c).sum()` with the enumeration
      starting at `k - 1`. */
  function Weighted(s: seq<nat>, k: nat): nat
  {
    if s == [] then 0 else k * s[0] + Weighted(s[1..], k + 1)
  }

  /** The score of a deck: each card times its position counted from the bottom. */
  function Score(deck: seq<nat>): nat
  {
    Weighted(Reverse(deck), 1)
  }

  /** `winner_score`: the score of player 1's deck unless it is empty, else player 2's. */
  function WinnerScore(deck1: seq<nat>, deck2: seq<nat>): nat
  {
    Score(if deck1 == [] then deck2 else deck1)
  }

  lemma {:induction false} WeightedSnoc(s: seq<nat>, k: nat, c: nat)
    ensures Weighted(s + [c], k) == Weighted(s, k) + (k + |s|) * c
  {
    if s != [] {
      assert (s + [c])[1..] == s[1..] + [c];
      WeightedSnoc(s[1..], k + 1, c);
    }
  }

  /** The top card counts as many times as the deck has cards. */
  lemma ScoreCons(c: nat, deck: seq<nat>)
    ensures Score([c] + deck) == (|deck| + 1) * c + Score(deck)
  {
    assert ([c] + deck)[1..] == deck;
    WeightedSnoc(Reverse(deck), 1, c);
  }

  /** The end of a round: the winner of the round puts their own card under
      their deck, then the other player's card. `rest1` and `rest2` are the
      decks after both top cards were drawn. */
  function Award(rest1: seq<nat>, rest2: seq<nat>, p1: nat, p2: nat, p1Wins: bool): (seq<nat>, seq<nat>)
  {
    if p1Wins then (rest1 + [p1, p2], rest2) else (rest1, rest2 + [p2, p1])
  }

  /** The award keeps both drawn cards in play. */
  lemma AwardConserves(rest1: seq<nat>, rest2: seq<nat>, p1: nat, p2: nat, p1Wins: bool)
    ensures var r := Award(rest1, rest2, p1, p2, p1Wins);
      multiset(r.0) + multiset(r.1) == multiset([p1] + rest1) + multiset([p2] + rest2)
  {
  }

  /** A round of `part_1`: the higher card wins. */
  function Round(deck1: seq<nat>, deck2: seq<nat>): (r: (seq<nat>, seq<nat>))
    requires deck1 != [] && deck2 != []
  {
    Award(deck1[1..], deck2[1..], deck1[0], deck2[0], deck1[0] > deck2[0])
  }

  /** A round keeps every card in play, once each. */
  lemma RoundConserves(deck1: seq<nat>, deck2: seq<nat>)
    requires deck1 != [] && deck2 != []
    ensures var r := Round(deck1, deck2);
      multiset(r.0) + multiset(r.1) == multiset(deck1) + multiset(deck2)
  {
    AwardConserves(deck1[1..], deck2[1..], deck1[0], deck2[0], deck1[0] > deck2[0]);
    assert deck1 == [deck1[0]] + deck1[1..];
    assert deck2 == [deck2[0]] + deck2[1..];
  }

  /** A round moves one card from the loser to the winner. */
  lemma RoundSizes(deck1: seq<nat>, deck2: seq<nat>)
    requires deck1 != [] && deck2 != []
    ensures var r := Round(deck1, deck2);
      if deck1[0] > deck2[0] then |r.0| == |deck1| + 1 && |r.1| == |deck2| - 1
      else |r.0| == |deck1| - 1 && |r.1| == |deck2| + 1
  {
  }

  /** At most `n` rounds of `part_1`, stopping when a deck is empty. */
  function Combat(deck1: seq<nat>, deck2: seq<nat>, n: nat): (r: (seq<nat>, seq<nat>))
    decreases n
  {
    if deck1 == [] || deck2 == [] || n == 0 then (deck1, deck2)
    else
      var next := Round(deck1, deck2);
      Combat(next.0, next.1, n - 1)
  }

  /** Every round keeps the cards in play. */
  lemma {:induction false} CombatConserves(deck1: seq<nat>, deck2: seq<nat>, n: nat)
    decreases n
    ensures var r := Combat(deck1, deck2, n);
      multiset(r.0) + multiset(r.1) == multiset(deck1) + multiset(deck2)
  {
    if !(deck1 == [] || deck2 == [] || n == 0) {
      var next := Round(deck1, deck2);
      RoundConserves(deck1, deck2);
      CombatConserves(next.0, next.1, n - 1);
    }
  }

  /** `m + n` rounds are `m` rounds followed by `n` more. */
  lemma {:induction false} CombatSplit(deck1: seq<nat>, deck2: seq<nat>, m: nat, n: nat)
    decreases m
    ensures var r := Combat(deck1, deck2, m); Combat(deck1, deck2, m + n) == Combat(r.0, r.1, n)
  {
    if !(deck1 == [] || deck2 == [] || m == 0) {
      var next := Round(deck1, deck2);
      CombatSplit(next.0, next.1, m - 1, n);
    }
  }

  /** The game is over within `n` rounds. */
  predicate Ends(deck1: seq<nat>, deck2: seq<nat>, n: nat)
  {
    var r := Combat(deck1, deck2, n);
    r.0 == [] || r.1 == []
  }

  /** Once the game is over, the winner holds every card. */
  lemma WinnerHoldsAll(deck1: seq<nat>, deck2: seq<nat>, n: nat)
    requires Ends(deck1, deck2, n)
    ensures var r := Combat(deck1, deck2, n);
      multiset(if r.0 == [] then r.1 else r.0) == multiset(deck1) + multiset(deck2)
  {
    CombatConserves(deck1, deck2, n);
  }

  /** `part_1`: play until a deck is empty and score the winner. The source
      loops forever on a game that never ends; `bound` is a number of
      rounds within which it does. */
  method Part1(deck1: seq<nat>, deck2: seq<nat>, ghost bound: nat) returns (score: nat)
    requires Ends(deck1, deck2, bound)
    ensures var r := Combat(deck1, deck2, bound); score == WinnerScore(r.0, r.1)
  {
    var player1, player2 := deck1, deck2;
    ghost var left: nat := bound;
    while !(player1 == [] || player2 == [])
      invariant Combat(player1, player2, left) == Combat(deck1, deck2, bound)
      decreases left
    {
      assert left > 0;
      ghost var next := Round(player1, player2);
      var p1 := player1[0];
      player1 := player1[1..];
      var p2 := player2[0];
      player2 := player2[1..];
      if p1 > p2 {
        player1 := player1 + [p1];
        player1 := player1 + [p2];
        assert player1 == next.0;
      } else {
        player2 := player2 + [p2];
        player2 := player2 + [p1];
        assert player2 == next.1;
      }
      left := left - 1;
    }
    score := WinnerScore(player1, player2);
  }

  /** How a recursive game ends: whether player 1 won, and the final decks. */
  datatype Outcome = Outcome(p1Wins: bool, deck1: seq<nat>, deck2: seq<nat>)

  /** `game` from the given decks, with the decks each player has already
      held in this game. Each round, and each level of sub-game, spends one
      unit of `fuel`; `None` means the fuel ran out. */
  function Game(deck1: seq<nat>, deck2: seq<nat>, seen1: set<seq<nat>>, seen2: set<seq<nat>>, fuel: nat): Option<Outcome>
    decreases fuel, 0
  {
    if fuel == 0 then None
    else if deck1 == [] || deck2 == [] then Some(Outcome(|deck1| > |deck2|, deck1, deck2))
    else if deck1 in seen1 || deck2 in seen2 then Some(Outcome(true, deck1, deck2))
    else
      match RoundWinner(deck1, deck2, fuel - 1)
      case None => None
      case Some(w) =>
        var next := Award(deck1[1..], deck2[1..], deck1[0], deck2[0], w);
        Game(next.0, next.1, seen1 + {deck1}, seen2 + {deck2}, fuel - 1)
  }

  /** Whether player 1 wins a round of `game`: by a sub-game on copies of
      the top cards when both players hold enough cards, else by the higher
      card. */
  function RoundWinner(deck1: seq<nat>, deck2: seq<nat>, fuel: nat): Option<bool>
    requires deck1 != [] && deck2 != []
    decreases fuel, 1
  {
    var p1, p2, rest1, rest2 := deck1[0], deck2[0], deck1[1..], deck2[1..];
    if p1 <= |rest1| && p2 <= |rest2| then
      match Game(rest1[..p1], rest2[..p2], {}, {}, fuel)
      case None => None
      case Some(o) => Some(o.p1Wins)
    else Some(p1 > p2)
  }

  /** Player 1 wins exactly when player 1 still holds cards at the end:
      either player 2's deck ran out, or a deck repeated. */
  lemma {:induction false} GameWinner(deck1: seq<nat>, deck2: seq<nat>, seen1: set<seq<nat>>, seen2: set<seq<nat>>, fuel: nat)
    requires Game(deck1, deck2, seen1, seen2, fuel).Some?
    decreases fuel
    ensures var o := Game(deck1, deck2, seen1, seen2, fuel).value;
      (o.p1Wins <==> o.deck1 != []) && (o.deck1 == [] || o.deck2 == [] || o.p1Wins)
  {
    if !(deck1 == [] || deck2 == [] || deck1 in seen1 || deck2 in seen2) {
      var w := RoundWinner(deck1, deck2, fuel - 1).value;
      var next := Award(deck1[1..], deck2[1..], deck1[0], deck2[0], w);
      GameWinner(next.0, next.1, seen1 + {deck1}, seen2 + {deck2}, fuel - 1);
    }
  }

  /** A game keeps every card in play, whatever its sub-games decide. */
  lemma {:induction false} GameConserves(deck1: seq<nat>, deck2: seq<nat>, seen1: set<seq<nat>>, seen2: set<seq<nat>>, fuel: nat)
    requires Game(deck1, deck2, seen1, seen2, fuel).Some?
    decreases fuel
    ensures var o := Game(deck1, deck2, seen1, seen2, fuel).value;
      multiset(o.deck1) + multiset(o.deck2) == multiset(deck1) + multiset(deck2)
  {
    if !(deck1 == [] || deck2 == [] || deck1 in seen1 || deck2 in seen2) {
      var w := RoundWinner(deck1, deck2, fuel - 1).value;
      var next := Award(deck1[1..], deck2[1..], deck1[0], deck2[0], w);
      GameConserves(next.0, next.1, seen1 + {deck1}, seen2 + {deck2}, fuel - 1);
      AwardConserves(deck1[1..], deck2[1..], deck1[0], deck2[0], w);
      assert deck1 == [deck1[0]] + deck1[1..];
      assert deck2 == [deck2[0]] + deck2[1..];
    }
  }

  /** More fuel does not change a game that finishes: the fuel is a bound,
      not part of the rules. */
  lemma {:induction false} GameFuel(deck1: seq<nat>, deck2: seq<nat>, seen1: set<seq<nat>>, seen2: set<seq<nat>>,
                                    fuel: nat, more: nat)
    requires Game(deck1, deck2, seen1, seen2, fuel).Some? && fuel <= more
    decreases fuel, 0
    ensures Game(deck1, deck2, seen1, seen2, more) == Game(deck1, deck2, seen1, seen2, fuel)
  {
    if !(deck1 == [] || deck2 == [] || deck1 in seen1 || deck2 in seen2) {
      RoundWinnerFuel(deck1, deck2, fuel - 1, more - 1);
      var w := RoundWinner(deck1, deck2, fuel - 1).value;
      var next := Award(deck1[1..], deck2[1..], deck1[0], deck2[0], w);
      GameFuel(next.0, next.1, seen1 + {deck1}, seen2 + {deck2}, fuel - 1, more - 1);
    }
  }

  lemma {:induction false} RoundWinnerFuel(deck1: seq<nat>, deck2: seq<nat>, fuel: nat, more: nat)
    requires deck1 != [] && deck2 != [] && RoundWinner(deck1, deck2, fuel).Some? && fuel <= more
    decreases fuel, 1
    ensures RoundWinner(deck1, deck2, more) == RoundWinner(deck1, deck2, fuel)
  {
    var p1, p2, rest1, rest2 := deck1[0], deck2[0], deck1[1..], deck2[1..];
    if p1 <= |rest1| && p2 <= |rest2| {
      GameFuel(rest1[..p1], rest2[..p2], {}, {}, fuel, more);
    }
  }

  /** A player's deck, a `VecDeque` the game changes in place. */
  class Deck {
    var cards: seq<nat>

    constructor (cards: seq<nat>)
      ensures this.cards == cards
    {
      this.cards := cards;
    }

    function Len(): nat
      reads this
    {
      |cards|
    }

    /** `pop_front().unwrap()`. */
    method PopFront() returns (c: nat)
      requires cards != []
      modifies this
      ensures c == old(cards)[0] && cards == old(cards)[1..]
    {
      c := cards[0];
      cards := cards[1..];
    }

    /** `push_back`. */
    method PushBack(c: nat)
      modifies this
      ensures cards == old(cards) + [c]
    {
      cards := cards + [c];
    }

    /** `iter().take(k).copied().collect()`: a new deck holding copies of
        the top `k` cards. */
    method Take(k: nat) returns (d: Deck)
      ensures fresh(d) && d.cards == if k <= |cards| then cards[..k] else cards
    {
      d := new Deck(if k <= |cards| then cards[..k] else cards);
    }
  }

  /** `game`: play the recursive game on the two decks in place and return
      whether player 1 won. A sub-game plays on new decks, so the decks of
      the game that starts it change only by the round's award. The seen
      sets hold whole decks: the source stores a 64-bit hash of each deck
      and treats equal hashes as equal decks. */
  method PlayGame(player1: Deck, player2: Deck, ghost fuel: nat) returns (p1Wins: bool)
    requires player1 != player2 && Game(player1.cards, player2.cards, {}, {}, fuel).Some?
    modifies player1, player2
    decreases fuel, 0
    ensures var o := Game(old(player1.cards), old(player2.cards), {}, {}, fuel).value;
      p1Wins == o.p1Wins && player1.cards == o.deck1 && player2.cards == o.deck2
  {
    var seen1: set<seq<nat>> := {};
    var seen2: set<seq<nat>> := {};
    ghost var left: nat := fuel;
    while !(player1.Len() == 0 || player2.Len() == 0)
      invariant left <= fuel
      invariant Game(player1.cards, player2.cards, seen1, seen2, left) ==
        Game(old(player1.cards), old(player2.cards), {}, {}, fuel)
      decreases left
    {
      if player1.cards in seen1 {
        return true;
      }
      seen1 := seen1 + {player1.cards};
      if player2.cards in seen2 {
        return true;
      }
      seen2 := seen2 + {player2.cards};
      assert RoundWinner(player1.cards, player2.cards, left - 1).Some?;
      var _ := PlayRound(player1, player2, left - 1);
      left := left - 1;
    }
    p1Wins := player1.Len() > player2.Len();
  }

  /** One round of `game` on the decks in place: draw, decide the round,
      award the cards, and return whether player 1 won the round. */
  method PlayRound(player1: Deck, player2: Deck, ghost fuel: nat) returns (w: bool)
    requires player1 != player2 && player1.cards != [] && player2.cards != []
    requires RoundWinner(player1.cards, player2.cards, fuel).Some?
    modifies player1, player2
    decreases fuel, 1
    ensures var deck1, deck2 := old(player1.cards), old(player2.cards);
      w == RoundWinner(deck1, deck2, fuel).value &&
      (player1.cards, player2.cards) == Award(deck1[1..], deck2[1..], deck1[0], deck2[0], w)
  {
    ghost var deck1, deck2 := player1.cards, player2.cards;
    var p1 := player1.PopFront();
    var p2 := player2.PopFront();
    var subGame := p1 <= player1.Len() && p2 <= player2.Len();
    if subGame {
      var sub1 := player1.Take(p1);
      var sub2 := player2.Take(p2);
      w := PlayGame(sub1, sub2, fuel);
    } else {
      w := p1 > p2;
    }
    if w {
      player1.PushBack(p1);
      player1.PushBack(p2);
      assert player1.cards == deck1[1..] + [p1, p2];
    } else {
      player2.PushBack(p2);
      player2.PushBack(p1);
      assert player2.cards == deck2[1..] + [p2, p1];
    }
  }

  /** `part_2`: play the recursive game and score the winner. `fuel` bounds
      the rounds and sub-games the game takes. */
  method Part2(deck1: seq<nat>, deck2: seq<nat>, ghost fuel: nat) returns (score: nat)
    requires Game(deck1, deck2, {}, {}, fuel).Some?
    ensures var o := Game(deck1, deck2, {}, {}, fuel).value; score == WinnerScore(o.deck1, o.deck2)
  {
    var player1 := new Deck(deck1);
    var player2 := new Deck(deck2);
    var _ := PlayGame(player1, player2, fuel);
    score := WinnerScore(player1.cards, player2.cards);
  }
}
