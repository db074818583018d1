/**
 The planning board: all lanes live in one flat array of cards, and moving a card must look like moving it between
 the sequences of the lanes.
 */
module Board {
  import opened Wrappers

  const PLAN_COLUMNS := ["backlog", "drafting", "edits", "review", "done"]

  datatype Card = Card(id: string, col: string, details: string)

  datatype State = State(cards: seq<Card>, focusId: Option<string>, dragId: Option<string>, overCol: Option<string>,
                         insertBeforeId: Option<string>)

  datatype Action =
    | Move(id: string, col: string, beforeId: Option<string>)
    | ShiftColumn(id: string, dir: int)
    | ShiftRank(id: string, dir: int)
    | DragStart(id: string)
    | DragOver(col: string, beforeId: Option<string>)
    | Drop
    | DragEnd
    | Focus(id: string)
    | Unknown

  // ---- Flat array ------------------------------------------------------------------------------

  /** An absent or empty string counts as false. */
  predicate Truthy(s: Option<string>) {
    s.Some? && s.value != ""
  }

  function FindIndex(cards: seq<Card>, id: string): (i: int)
    ensures -1 <= i < |cards|
    ensures i >= 0 ==> cards[i].id == id && forall k :: 0 <= k < i ==> cards[k].id != id
    ensures i < 0 ==> forall card <- cards :: card.id != id
  {
    if cards == [] then -1
    else if cards[0].id == id then 0
    else
      var rest := FindIndex(cards[1..], id);
      if rest < 0 then -1 else rest + 1
  }

  function ColumnIndex(columns: seq<string>, key: string): (i: int)
    ensures -1 <= i < |columns|
    ensures i >= 0 ==> columns[i] == key
    ensures i < 0 ==> key !in columns
  {
    if columns == [] then -1
    else if columns[0] == key then 0
    else
      var rest := ColumnIndex(columns[1..], key);
      if rest < 0 then -1 else rest + 1
  }

  function CardsInColumn(cards: seq<Card>, col: string): seq<Card> {
    if cards == [] then [] else (if cards[0].col == col then [cards[0]] else []) + CardsInColumn(cards[1..], col)
  }

  function RemoveAt<T>(s: seq<T>, i: nat): seq<T>
    requires i < |s|
  {
    s[..i] + s[i + 1..]
  }

  function InsertAt<T>(s: seq<T>, i: nat, x: T): seq<T>
    requires i <= |s|
  {
    s[..i] + [x] + s[i..]
  }

  /** The position of the column's last card. */
  function LastInColumn(cards: seq<Card>, col: string): (last: int)
    ensures -1 <= last < |cards|
    ensures last >= 0 ==> cards[last].col == col
    ensures forall k :: last < k < |cards| ==> cards[k].col != col
  {
    if cards == [] then -1
    else if cards[|cards| - 1].col == col then |cards| - 1
    else LastInColumn(cards[..|cards| - 1], col)
  }

  function AfterColumn(cards: seq<Card>, col: string): (at: nat)
    ensures at <= |cards|
  {
    var last := LastInColumn(cards, col);
    if last == -1 then |cards| else last + 1
  }

  function Placement(next: seq<Card>, id: string, col: string, beforeId: Option<string>): (at: nat)
    ensures at <= |next|
  {
    if Truthy(beforeId) && beforeId.value != id && FindIndex(next, beforeId.value) >= 0 then FindIndex(next, beforeId.value)
    else AfterColumn(next, col)
  }

  function Moved(cards: seq<Card>, id: string, col: string, beforeId: Option<string>): seq<Card> {
    var i := FindIndex(cards, id);
    if i < 0 then cards
    else
      var next := RemoveAt(cards, i);
      InsertAt(next, Placement(next, id, col, beforeId), cards[i].(col := col))
  }

  method MoveCard(cards: seq<Card>, id: string, col: string, beforeId: Option<string>) returns (next: seq<Card>)
    ensures next == Moved(cards, id, col, beforeId)
  {
    hide FindIndex, LastInColumn, RemoveAt, InsertAt;
    var i := FindIndex(cards, id);
    if i < 0 { return cards; }
    next := RemoveAt(cards, i);
    NoLast(next, col);
    var placed := cards[i].(col := col);
    if Truthy(beforeId) && beforeId.value != id {
      var j := FindIndex(next, beforeId.value);
      if j >= 0 { return InsertAt(next, j, placed); }
    }
    var last := -1;
    for idx := 0 to |next|
      invariant last == LastInColumn(next[..idx], col)
    {
      LastStep(next, idx, col);
      if next[idx].col == col { last := idx; }
    }
    assert next[..|next|] == next;
    if last == -1 {
      InsertedLast(next, placed);
      next := next + [placed];
    } else {
      next := InsertAt(next, last + 1, placed);
    }
  }

  lemma InsertedLast(next: seq<Card>, placed: Card)
    ensures next + [placed] == InsertAt(next, |next|, placed)
  {
  }

  lemma NoLast(next: seq<Card>, col: string)
    ensures LastInColumn(next[..0], col) == -1
  {
  }

  lemma LastStep(next: seq<Card>, idx: nat, col: string)
    requires idx < |next|
    ensures LastInColumn(next[..idx + 1], col) == if next[idx].col == col then idx else LastInColumn(next[..idx], col)
  {
    assert next[..idx + 1][..idx] == next[..idx];
  }

  // ---- Lanes -----------------------------------------------------------------------------------

  lemma {:induction false} LaneAppend(a: seq<Card>, b: seq<Card>, col: string)
    ensures CardsInColumn(a + b, col) == CardsInColumn(a, col) + CardsInColumn(b, col)
  {
    if a == [] {
      assert a + b == b;
    } else {
      LaneAppend(a[1..], b, col);
      assert (a + b)[1..] == a[1..] + b;
      Associate(if a[0].col == col then [a[0]] else [], CardsInColumn(a[1..], col), CardsInColumn(b, col));
    }
  }

  lemma Associate(a: seq<Card>, b: seq<Card>, c: seq<Card>)
    ensures a + (b + c) == (a + b) + c
  {
  }

  lemma {:induction false} LaneMembers(cards: seq<Card>, col: string, card: Card)
    ensures card in CardsInColumn(cards, col) <==> card in cards && card.col == col
  {
    if cards != [] {
      LaneMembers(cards[1..], col, card);
      assert cards == [cards[0]] + cards[1..];
    }
  }

  /** A split of the array splits every lane. */
  lemma LaneSplit(cards: seq<Card>, at: nat, c: string)
    requires at <= |cards|
    ensures CardsInColumn(cards, c) == CardsInColumn(cards[..at], c) + CardsInColumn(cards[at..], c)
  {
    assert cards == cards[..at] + cards[at..];
    LaneAppend(cards[..at], cards[at..], c);
  }

  lemma LaneOfOne(card: Card, c: string)
    ensures CardsInColumn([card], c) == if card.col == c then [card] else []
  {
  }

  ghost predicate UniqueIds(cards: seq<Card>) {
    forall i, j :: 0 <= i < j < |cards| ==> cards[i].id != cards[j].id
  }

  function Without(lane: seq<Card>, id: string): seq<Card> {
    if lane == [] then [] else (if lane[0].id == id then [] else [lane[0]]) + Without(lane[1..], id)
  }

  /** Before the named card of the lane, or at the end. */
  function InsertBefore(lane: seq<Card>, placed: Card, beforeId: Option<string>): seq<Card> {
    var at := if Truthy(beforeId) && beforeId.value != placed.id then FindIndex(lane, beforeId.value) else -1;
    InsertAt(lane, if at < 0 then |lane| else at, placed)
  }

  /** The before-id, when it names another card, names one of the target lane. */
  ghost predicate BeforeInLane(cards: seq<Card>, id: string, col: string, beforeId: Option<string>) {
    Truthy(beforeId) && beforeId.value != id ==> forall card <- cards :: card.id == beforeId.value ==> card.col == col
  }

  lemma {:induction false} WithoutAppend(a: seq<Card>, b: seq<Card>, id: string)
    ensures Without(a + b, id) == Without(a, id) + Without(b, id)
  {
    hide Without;
    WithoutStep(a, id);
    if a == [] {
      assert a + b == b;
    } else {
      WithoutStep(a + b, id);
      WithoutAppend(a[1..], b, id);
      assert (a + b)[1..] == a[1..] + b && (a + b)[0] == a[0];
      Associate(if a[0].id == id then [] else [a[0]], Without(a[1..], id), Without(b, id));
    }
  }

  lemma WithoutStep(lane: seq<Card>, id: string)
    ensures Without(lane, id) == if lane == [] then [] else (if lane[0].id == id then [] else [lane[0]]) + Without(lane[1..], id)
  {
  }

  lemma {:induction false} WithoutAbsent(lane: seq<Card>, id: string)
    requires forall card <- lane :: card.id != id
    ensures Without(lane, id) == lane
  {
    if lane != [] {
      assert lane[0] in lane;
      WithoutAbsent(lane[1..], id);
    }
  }

  /** Taking a card out of the array takes it out of its lane and leaves the others. */
  lemma RemovedFromLane(cards: seq<Card>, i: nat, c: string)
    requires i < |cards| && UniqueIds(cards)
    ensures CardsInColumn(RemoveAt(cards, i), c) == Without(CardsInColumn(cards, c), cards[i].id)
  {
    hide CardsInColumn, Without;
    var a, b, id := CardsInColumn(cards[..i], c), CardsInColumn(cards[i + 1..], c), cards[i].id;
    LaneSplit(cards, i, c);
    LaneSplit(cards[i..], 1, c);
    assert cards[i..][..1] == [cards[i]] && cards[i..][1..] == cards[i + 1..];
    LaneOfOne(cards[i], c);
    LaneAppend(cards[..i], cards[i + 1..], c);
    WithoutAppend(a, CardsInColumn(cards[i..], c), id);
    WithoutAppend(CardsInColumn([cards[i]], c), b, id);
    OthersRemain(cards, cards[..i], id, c);
    OthersRemain(cards, cards[i + 1..], id, c);
    WithoutOne(cards[i]);
  }

  lemma WithoutOne(card: Card)
    ensures Without([card], card.id) == [] == Without([], card.id)
  {
  }

  lemma OthersRemain(cards: seq<Card>, part: seq<Card>, id: string, c: string)
    requires forall card <- part :: card.id != id
    ensures Without(CardsInColumn(part, c), id) == CardsInColumn(part, c)
  {
    forall card <- CardsInColumn(part, c) ensures card.id != id {
      LaneMembers(part, c, card);
    }
    WithoutAbsent(CardsInColumn(part, c), id);
  }

  lemma InsertedIntoLane(next: seq<Card>, at: nat, placed: Card, c: string)
    requires at <= |next|
    ensures CardsInColumn(InsertAt(next, at, placed), c)
         == CardsInColumn(next[..at], c) + (if placed.col == c then [placed] else []) + CardsInColumn(next[at..], c)
  {
    hide CardsInColumn;
    LaneOfOne(placed, c);
    LaneAppend(next[..at] + [placed], next[at..], c);
    LaneAppend(next[..at], [placed], c);
  }

  /** Where a card of the lane stands in the array tells where it stands in the lane. */
  lemma LanePosition(next: seq<Card>, at: nat, c: string)
    requires at < |next| && UniqueIds(next) && next[at].col == c
    ensures FindIndex(CardsInColumn(next, c), next[at].id) == |CardsInColumn(next[..at], c)| < |CardsInColumn(next, c)|
  {
    var a, b := CardsInColumn(next[..at], c), CardsInColumn(next[at..], c);
    LaneSplit(next, at, c);
    assert b[0] == next[at];
    assert (a + b)[|a|] == next[at];
    forall card <- a ensures card.id != next[at].id {
      LaneMembers(next[..at], c, card);
      var k :| 0 <= k < at && next[k] == card;
    }
  }

  lemma EmptyLane(cards: seq<Card>, c: string)
    requires forall card <- cards :: card.col != c
    ensures CardsInColumn(cards, c) == []
  {
  }

  lemma AbsentFromLane(cards: seq<Card>, id: string, c: string)
    requires forall card <- cards :: card.id == id ==> card.col != c
    ensures FindIndex(CardsInColumn(cards, c), id) == -1
  {
    forall card <- CardsInColumn(cards, c) ensures card.id != id {
      LaneMembers(cards, c, card);
    }
  }

  /** Without the card, ids are still unique, and the other cards are as before. */
  lemma Remaining(cards: seq<Card>, i: nat)
    requires i < |cards| && UniqueIds(cards)
    ensures UniqueIds(RemoveAt(cards, i))
    ensures forall card :: card in RemoveAt(cards, i) <==> card in cards && card.id != cards[i].id
  {
    var next := RemoveAt(cards, i);
    assert cards == cards[..i] + [cards[i]] + cards[i + 1..];
  }

  /** Placement, seen from the target lane. */
  lemma PlacementInLane(next: seq<Card>, placed: Card, beforeId: Option<string>)
    requires UniqueIds(next) && BeforeInLane(next, placed.id, placed.col, beforeId)
    ensures var at, lane := Placement(next, placed.id, placed.col, beforeId), CardsInColumn(next, placed.col);
            InsertBefore(lane, placed, beforeId)
            == CardsInColumn(next[..at], placed.col) + [placed] + CardsInColumn(next[at..], placed.col)
  {
    hide CardsInColumn;
    var col := placed.col;
    var at, lane := Placement(next, placed.id, col, beforeId), CardsInColumn(next, placed.col);
    LaneSplit(next, at, col);
    if Truthy(beforeId) && beforeId.value != placed.id && FindIndex(next, beforeId.value) >= 0 {
      assert next[at] in next;
      LanePosition(next, at, col);
    } else {
      EmptyLane(next[at..], col);
      if Truthy(beforeId) && beforeId.value != placed.id { AbsentFromLane(next, beforeId.value, col); }
    }
  }

  /**
   Seen lane by lane, a move takes the card out of its lane and puts it into the target lane before the named card
   or at the end; every other lane is untouched.
   */
  lemma MoveRefinesLanes(cards: seq<Card>, id: string, col: string, beforeId: Option<string>, c: string)
    requires UniqueIds(cards) && FindIndex(cards, id) >= 0 && BeforeInLane(cards, id, col, beforeId)
    ensures var rest, placed := Without(CardsInColumn(cards, c), id), cards[FindIndex(cards, id)].(col := col);
            CardsInColumn(Moved(cards, id, col, beforeId), c) == if c == col then InsertBefore(rest, placed, beforeId) else rest
  {
    hide CardsInColumn, Without, InsertBefore, Placement, InsertAt;
    var i := FindIndex(cards, id);
    var next, placed := RemoveAt(cards, i), cards[i].(col := col);
    Remaining(cards, i);
    RemovedFromLane(cards, i, c);
    InsertedIntoLane(next, Placement(next, id, col, beforeId), placed, c);
    if c == col {
      PlacementInLane(next, placed, beforeId);
    } else {
      LaneSplit(next, Placement(next, id, col, beforeId), c);
    }
  }

  /** Whatever the before-id names, only the lane the card leaves and the lane it enters can change. */
  lemma OtherLanesStay(cards: seq<Card>, id: string, col: string, beforeId: Option<string>, c: string)
    requires UniqueIds(cards) && FindIndex(cards, id) >= 0 && c != col && c != cards[FindIndex(cards, id)].col
    ensures CardsInColumn(Moved(cards, id, col, beforeId), c) == CardsInColumn(cards, c)
  {
    hide CardsInColumn, Without, Placement, InsertAt;
    var i := FindIndex(cards, id);
    var next := RemoveAt(cards, i);
    RemovedFromLane(cards, i, c);
    InsertedIntoLane(next, Placement(next, id, col, beforeId), cards[i].(col := col), c);
    LaneSplit(next, Placement(next, id, col, beforeId), c);
    forall card <- CardsInColumn(cards, c) ensures card.id != id {
      LaneMembers(cards, c, card);
      var k :| 0 <= k < |cards| && cards[k] == card;
    }
    WithoutAbsent(CardsInColumn(cards, c), id);
  }

  // ---- Reducer ---------------------------------------------------------------------------------

  function ShiftedColumn(state: State, id: string, dir: int): State {
    var i := FindIndex(state.cards, id);
    if i < 0 then state
    else
      var ni := ColumnIndex(PLAN_COLUMNS, state.cards[i].col) + dir;
      if ni < 0 || ni >= |PLAN_COLUMNS| then state
      else state.(cards := Moved(state.cards, id, PLAN_COLUMNS[ni], None), focusId := Some(id))
  }

  /** The id of the card that a rank shift puts the card before. */
  function RankBefore(lane: seq<Card>, np: nat, dir: int): Option<string>
    requires np < |lane|
  {
    if dir == 1 then if np + 1 < |lane| then Some(lane[np + 1].id) else None else Some(lane[np].id)
  }

  function ShiftedRank(state: State, id: string, dir: int): State {
    var i := FindIndex(state.cards, id);
    if i < 0 then state
    else
      var lane := CardsInColumn(state.cards, state.cards[i].col);
      var np := FindIndex(lane, id) + dir;
      if np < 0 || np >= |lane| then state
      else state.(cards := Moved(state.cards, id, state.cards[i].col, RankBefore(lane, np, dir)), focusId := Some(id))
  }

  function Reduce(state: State, action: Action): State {
    match action
    case Move(id, col, beforeId) =>
      if FindIndex(state.cards, id) < 0 then state
      else state.(cards := Moved(state.cards, id, col, beforeId), focusId := Some(id))
    case ShiftColumn(id, dir) => ShiftedColumn(state, id, dir)
    case ShiftRank(id, dir) => ShiftedRank(state, id, dir)
    case DragStart(id) => state.(dragId := Some(id))
    case DragOver(col, beforeId) => state.(overCol := Some(col), insertBeforeId := beforeId)
    case Drop =>
      var cleared := state.(dragId := None, overCol := None, insertBeforeId := None);
      if !Truthy(state.dragId) || !Truthy(state.overCol) then cleared
      else cleared.(cards := Moved(state.cards, state.dragId.value, state.overCol.value, state.insertBeforeId))
    case DragEnd => state.(dragId := None, overCol := None, insertBeforeId := None)
    case Focus(id) => state.(focusId := Some(id))
    case Unknown => state
  }

  function Run(state: State, actions: seq<Action>): State {
    if actions == [] then state else Reduce(Run(state, actions[..|actions| - 1]), actions[|actions| - 1])
  }

  // ---- Actions, seen lane by lane --------------------------------------------------------------

  /**
   A column shift puts the card last into the lane `dir` columns on, leaves the other lanes as they are, and does
   nothing where there is no such column. A card of an unknown column counts as standing before the first.
   */
  lemma ShiftColumnLands(state: State, id: string, dir: int, c: string)
    requires UniqueIds(state.cards) && FindIndex(state.cards, id) >= 0
    ensures var card, after := state.cards[FindIndex(state.cards, id)], Reduce(state, ShiftColumn(id, dir));
            var ni := (if card.col in PLAN_COLUMNS then ColumnIndex(PLAN_COLUMNS, card.col) else -1) + dir;
            if ni < 0 || ni >= 5 then after == state
            else && after == state.(cards := after.cards, focusId := Some(id))
                 && CardsInColumn(after.cards, c)
                    == Without(CardsInColumn(state.cards, c), id) + if c == PLAN_COLUMNS[ni] then [card.(col := c)] else []
  {
    hide CardsInColumn, Without, Moved, FindIndex;
    var card := state.cards[FindIndex(state.cards, id)];
    var ni := ColumnIndex(PLAN_COLUMNS, card.col) + dir;
    if 0 <= ni < 5 {
      MoveRefinesLanes(state.cards, id, PLAN_COLUMNS[ni], None, c);
      var rest := Without(CardsInColumn(state.cards, c), id);
      assert InsertBefore(rest, card.(col := c), None) == rest + [card.(col := c)];
    }
  }

  /** A move puts the card before the named card of the lane, or last, and leaves the other lanes as they are. */
  lemma MoveLands(state: State, id: string, col: string, beforeId: Option<string>, c: string)
    requires UniqueIds(state.cards) && FindIndex(state.cards, id) >= 0 && BeforeInLane(state.cards, id, col, beforeId)
    ensures var card, after := state.cards[FindIndex(state.cards, id)], Reduce(state, Move(id, col, beforeId));
            var rest := Without(CardsInColumn(state.cards, c), id);
            && after == state.(cards := after.cards, focusId := Some(id))
            && CardsInColumn(after.cards, c) == if c == col then InsertBefore(rest, card.(col := col), beforeId) else rest
  {
    hide CardsInColumn, Without, Moved, InsertBefore;
    MoveRefinesLanes(state.cards, id, col, beforeId, c);
  }

  /** Dragging a card over a place and dropping it is moving it there, and nothing of the drag is left. */
  lemma DragIsMove(state: State, id: string, col: string, beforeId: Option<string>)
    requires id != "" && col != ""
    ensures Run(state, [DragStart(id), DragOver(col, beforeId), Drop])
         == state.(cards := Reduce(state, Move(id, col, beforeId)).cards, dragId := None, overCol := None, insertBeforeId := None)
  {
    hide Moved, FindIndex, Run;
    ThreeActions(state, DragStart(id), DragOver(col, beforeId), Drop);
    if FindIndex(state.cards, id) < 0 { AbsentStays(state.cards, id, col, beforeId); }
    var dragged := state.(dragId := Some(id), overCol := Some(col), insertBeforeId := beforeId);
    assert Reduce(Reduce(state, DragStart(id)), DragOver(col, beforeId)) == dragged;
    assert Reduce(state, Move(id, col, beforeId)).cards == Moved(state.cards, id, col, beforeId);
  }

  lemma AbsentStays(cards: seq<Card>, id: string, col: string, beforeId: Option<string>)
    requires FindIndex(cards, id) < 0
    ensures Moved(cards, id, col, beforeId) == cards
  {
  }

  /** A drag that ends without a drop changes no card. */
  lemma DragCancelled(state: State, id: string, col: string, beforeId: Option<string>)
    ensures Run(state, [DragStart(id), DragOver(col, beforeId), DragEnd])
         == state.(dragId := None, overCol := None, insertBeforeId := None)
  {
    ThreeActions(state, DragStart(id), DragOver(col, beforeId), DragEnd);
  }

  lemma ThreeActions(state: State, a: Action, b: Action, c: Action)
    ensures Run(state, [a, b, c]) == Reduce(Reduce(Reduce(state, a), b), c)
  {
    hide Reduce;
    TwoActions(state, a, b);
    assert [a, b, c][..2] == [a, b];
  }

  // ---- Conservation ----------------------------------------------------------------------------

  /** The cards apart from the column they are in. */
  function Contents(cards: seq<Card>): multiset<Card> {
    if cards == [] then multiset{} else multiset{cards[0].(col := "")} + Contents(cards[1..])
  }

  lemma {:induction false} ContentsAppend(a: seq<Card>, b: seq<Card>)
    ensures Contents(a + b) == Contents(a) + Contents(b)
  {
    hide Contents;
    ContentsStep(a);
    if a == [] {
      assert a + b == b;
    } else {
      ContentsStep(a + b);
      ContentsAppend(a[1..], b);
      assert (a + b)[1..] == a[1..] + b && (a + b)[0] == a[0];
      Unite(multiset{a[0].(col := "")}, Contents(a[1..]), Contents(b));
    }
  }

  lemma ContentsStep(cards: seq<Card>)
    ensures Contents(cards) == if cards == [] then multiset{} else multiset{cards[0].(col := "")} + Contents(cards[1..])
  {
  }

  lemma Unite(a: multiset<Card>, b: multiset<Card>, c: multiset<Card>)
    ensures a + (b + c) == (a + b) + c
  {
  }

  lemma MovedConserves(cards: seq<Card>, id: string, col: string, beforeId: Option<string>)
    requires UniqueIds(cards)
    ensures UniqueIds(Moved(cards, id, col, beforeId)) && Contents(Moved(cards, id, col, beforeId)) == Contents(cards)
    ensures |Moved(cards, id, col, beforeId)| == |cards|
  {
    hide Placement;
    var i := FindIndex(cards, id);
    if i >= 0 {
      var next, placed := RemoveAt(cards, i), cards[i].(col := col);
      var at := Placement(next, id, col, beforeId);
      Remaining(cards, i);
      InsertedIsUnique(next, at, placed);
      ContentsSplit(cards, i);
      ContentsAppend(cards[..i], cards[i + 1..]);
      ContentsInserted(next, at, placed);
    }
  }

  lemma ContentsSplit(cards: seq<Card>, i: nat)
    requires i < |cards|
    ensures Contents(cards) == Contents(cards[..i]) + multiset{cards[i].(col := "")} + Contents(cards[i + 1..])
  {
    assert cards == cards[..i] + cards[i..];
    ContentsAppend(cards[..i], cards[i..]);
    assert cards[i..][1..] == cards[i + 1..];
  }

  lemma ContentsInserted(next: seq<Card>, at: nat, placed: Card)
    requires at <= |next|
    ensures Contents(InsertAt(next, at, placed)) == Contents(next) + multiset{placed.(col := "")}
  {
    var after := InsertAt(next, at, placed);
    ContentsSplit(after, at);
    assert after[..at] == next[..at] && after[at + 1..] == next[at..] && next == next[..at] + next[at..];
    ContentsAppend(next[..at], next[at..]);
  }

  lemma InsertedIsUnique(next: seq<Card>, at: nat, placed: Card)
    requires at <= |next| && UniqueIds(next) && forall card <- next :: card.id != placed.id
    ensures UniqueIds(InsertAt(next, at, placed))
  {
    var after := InsertAt(next, at, placed);
    assert forall k :: 0 <= k < |after| ==> after[k] == if k < at then next[k] else if k == at then placed else next[k - 1];
  }

  /** Over every sequence of actions no card is lost, duplicated or altered, apart from its column. */
  lemma {:induction false} CardsAreConserved(state: State, actions: seq<Action>)
    requires UniqueIds(state.cards)
    ensures UniqueIds(Run(state, actions).cards) && Contents(Run(state, actions).cards) == Contents(state.cards)
    decreases |actions|
  {
    hide UniqueIds, Contents, Reduce;
    if actions != [] {
      CardsAreConserved(state, actions[..|actions| - 1]);
      ReduceConserves(Run(state, actions[..|actions| - 1]), actions[|actions| - 1]);
    }
  }

  lemma ReduceConserves(state: State, action: Action)
    requires UniqueIds(state.cards)
    ensures UniqueIds(Reduce(state, action).cards) && Contents(Reduce(state, action).cards) == Contents(state.cards)
  {
    hide UniqueIds, Contents, Moved;
    var cards := state.cards;
    match action
    case Move(id, col, beforeId) => MovedConserves(cards, id, col, beforeId);
    case ShiftColumn(id, dir) =>
      var i := FindIndex(cards, id);
      if i >= 0 {
        var ni := ColumnIndex(PLAN_COLUMNS, cards[i].col) + dir;
        if 0 <= ni < |PLAN_COLUMNS| { MovedConserves(cards, id, PLAN_COLUMNS[ni], None); }
      }
    case ShiftRank(id, dir) =>
      var i := FindIndex(cards, id);
      if i >= 0 {
        var lane := CardsInColumn(cards, cards[i].col);
        var np := FindIndex(lane, id) + dir;
        if 0 <= np < |lane| { MovedConserves(cards, id, cards[i].col, RankBefore(lane, np, dir)); }
      }
    case Drop =>
      if Truthy(state.dragId) && Truthy(state.overCol) {
        MovedConserves(cards, state.dragId.value, state.overCol.value, state.insertBeforeId);
      }
    case _ =>
  }

  // ---- Rank shifts -----------------------------------------------------------------------------

  lemma LaneIsUnique(cards: seq<Card>, c: string)
    requires UniqueIds(cards)
    ensures UniqueIds(CardsInColumn(cards, c))
  {
    if cards != [] {
      assert UniqueIds(cards[1..]);
      LaneIsUnique(cards[1..], c);
      var rest := CardsInColumn(cards[1..], c);
      forall card <- rest ensures card.id != cards[0].id {
        LaneMembers(cards[1..], c, card);
        var k :| 0 <= k < |cards[1..]| && cards[1..][k] == card;
      }
      if cards[0].col == c {
        var lane := [cards[0]] + rest;
        assert forall k :: 1 <= k < |lane| ==> lane[k] == rest[k - 1] && rest[k - 1] in rest;
      }
    }
  }

  lemma IndexOf(lane: seq<Card>, k: nat)
    requires UniqueIds(lane) && k < |lane|
    ensures FindIndex(lane, lane[k].id) == k
  {
    assert lane[k] in lane;
  }

  lemma {:induction false} WithoutIsRemoveAt(lane: seq<Card>, k: nat)
    requires UniqueIds(lane) && k < |lane|
    ensures Without(lane, lane[k].id) == RemoveAt(lane, k)
  {
    hide Without;
    WithoutStep(lane, lane[k].id);
    if k == 0 {
      WithoutAbsent(lane[1..], lane[k].id);
    } else {
      WithoutIsRemoveAt(lane[1..], k - 1);
      assert [lane[0]] + RemoveAt(lane[1..], k - 1) == RemoveAt(lane, k);
    }
  }

  function MoveTo(lane: seq<Card>, pos: nat, target: nat): seq<Card>
    requires pos < |lane| && target < |lane|
  {
    InsertAt(RemoveAt(lane, pos), target, lane[pos])
  }

  /**
   Where a shift of the card at `pos` by `dir` puts it: one short past the next card, and last for a shift by 0 or
   before a card whose id is empty.
   */
  function RankTarget(lane: seq<Card>, pos: nat, dir: int): (target: nat)
    requires pos < |lane| && 0 <= pos + dir < |lane|
    ensures target < |lane|
  {
    if dir == 0 || RankBefore(lane, pos + dir, dir) == Some("") then |lane| - 1
    else if dir > 1 then pos + dir - 1 else pos + dir
  }

  lemma RankPlacement(lane: seq<Card>, pos: nat, dir: int)
    requires UniqueIds(lane) && pos < |lane| && 0 <= pos + dir < |lane|
    ensures InsertBefore(RemoveAt(lane, pos), lane[pos], RankBefore(lane, pos + dir, dir)) == MoveTo(lane, pos, RankTarget(lane, pos, dir))
  {
    hide FindIndex;
    var before := if dir == 1 then pos + 2 else pos + dir;
    if before < |lane| && before != pos {
      IndexInRest(lane, pos, before);
    }
  }

  lemma IndexInRest(lane: seq<Card>, pos: nat, k: nat)
    requires UniqueIds(lane) && pos < |lane| && k < |lane| && k != pos
    ensures lane[k].id != lane[pos].id
    ensures FindIndex(RemoveAt(lane, pos), lane[k].id) == if k < pos then k else k - 1
  {
    hide FindIndex;
    Remaining(lane, pos);
    var at := if k < pos then k else k - 1;
    assert RemoveAt(lane, pos)[at] == lane[k];
    IndexOf(RemoveAt(lane, pos), at);
  }

  function LaneOf(state: State, id: string): seq<Card>
    requires FindIndex(state.cards, id) >= 0
  {
    CardsInColumn(state.cards, state.cards[FindIndex(state.cards, id)].col)
  }

  /** The card exists, and the shift stays inside its lane. */
  ghost predicate Shiftable(state: State, id: string, dir: int) {
    UniqueIds(state.cards) && FindIndex(state.cards, id) >= 0 && 0 <= FindIndex(LaneOf(state, id), id) + dir < |LaneOf(state, id)|
  }

  /** The effect of a rank shift, for every distance: the card moves inside its lane, and no other lane changes. */
  lemma ShiftRankInLane(state: State, id: string, dir: int, c: string)
    requires Shiftable(state, id, dir)
    ensures var lane := LaneOf(state, id);
            var pos := FindIndex(lane, id);
            && 0 <= pos && lane[pos] == state.cards[FindIndex(state.cards, id)]
            && CardsInColumn(Reduce(state, ShiftRank(id, dir)).cards, c)
               == if c == lane[pos].col then MoveTo(lane, pos, RankTarget(lane, pos, dir)) else CardsInColumn(state.cards, c)
  {
    hide CardsInColumn, Without, InsertBefore, Moved, MoveTo, RankTarget;
    var cards := state.cards;
    var col, lane := cards[FindIndex(cards, id)].col, LaneOf(state, id);
    LanePositionOf(cards, id);
    var pos := FindIndex(lane, id);
    var beforeId := RankBefore(lane, pos + dir, dir);
    LaneIsUnique(cards, col);
    if c == col {
      BeforeIsInLane(cards, col, id, if dir == 1 then pos + 2 else pos + dir);
      MoveRefinesLanes(cards, id, col, beforeId, c);
      WithoutIsRemoveAt(lane, pos);
      RankPlacement(lane, pos, dir);
    } else {
      OtherLanesStay(cards, id, col, beforeId, c);
    }
  }

  lemma LanePositionOf(cards: seq<Card>, id: string)
    requires UniqueIds(cards) && FindIndex(cards, id) >= 0
    ensures var card := cards[FindIndex(cards, id)];
            var pos := FindIndex(CardsInColumn(cards, card.col), id);
            pos >= 0 && CardsInColumn(cards, card.col)[pos] == card
  {
    hide CardsInColumn, FindIndex;
    var i := FindIndex(cards, id);
    var c := cards[i].col;
    var lane := CardsInColumn(cards, c);
    LanePosition(cards, i, c);
    var pos := FindIndex(lane, id);
    LaneMembers(cards, c, lane[pos]);
    var k :| 0 <= k < |cards| && cards[k] == lane[pos];
    assert k == i;
  }

  lemma BeforeIsInLane(cards: seq<Card>, c: string, id: string, k: nat)
    requires UniqueIds(cards)
    ensures var lane := CardsInColumn(cards, c);
            k < |lane| ==> BeforeInLane(cards, id, c, Some(lane[k].id))
  {
    var lane := CardsInColumn(cards, c);
    if k < |lane| {
      LaneMembers(cards, c, lane[k]);
      var j :| 0 <= j < |cards| && cards[j] == lane[k];
      forall card <- cards | card.id == lane[k].id ensures card.col == c {
        var m :| 0 <= m < |cards| && cards[m] == card;
        assert m == j;
      }
    }
  }

  function Swapped(lane: seq<Card>, i: nat, j: nat): seq<Card>
    requires i < |lane| && j < |lane|
  {
    lane[i := lane[j]][j := lane[i]]
  }

  lemma MoveToIsSwap(lane: seq<Card>, pos: nat, next: nat, target: nat)
    requires UniqueIds(lane) && pos < |lane| && next < |lane| && target < |lane| && (next == pos + 1 || pos == next + 1)
    ensures MoveTo(lane, pos, target) == Swapped(lane, pos, next) <==> target == next
  {
    var moved, swapped := MoveTo(lane, pos, target), Swapped(lane, pos, next);
    assert moved[target] == lane[pos] == swapped[next];
    if target == next {
      assert moved == swapped;
    } else {
      assert swapped[target] != lane[pos];
    }
  }

  /** A shift by one rank is the swap with the neighbour exactly when the card it is put before has no empty id. */
  lemma ShiftRankSwaps(state: State, id: string, dir: int)
    requires Shiftable(state, id, dir) && (dir == 1 || dir == -1)
    ensures var lane := LaneOf(state, id);
            var pos := FindIndex(lane, id);
            && 0 <= pos
            && (CardsInColumn(Reduce(state, ShiftRank(id, dir)).cards, lane[pos].col) == Swapped(lane, pos, pos + dir)
                <==> RankBefore(lane, pos + dir, dir) != Some(""))
  {
    hide CardsInColumn, Reduce, FindIndex, MoveTo, Swapped;
    var lane := LaneOf(state, id);
    ShiftRankInLane(state, id, dir, state.cards[FindIndex(state.cards, id)].col);
    LaneIsUnique(state.cards, state.cards[FindIndex(state.cards, id)].col);
    var pos := FindIndex(lane, id);
    MoveToIsSwap(lane, pos, pos + dir, RankTarget(lane, pos, dir));
  }

  /** Two moves of the same card inside its lane. */
  lemma MoveTwice(lane: seq<Card>, pos: nat, first: nat, second: nat)
    requires UniqueIds(lane) && pos < |lane| && first < |lane| && second < |lane|
    ensures var moved := MoveTo(lane, pos, first);
            && UniqueIds(moved) && |moved| == |lane| && FindIndex(moved, lane[pos].id) == first && moved[first] == lane[pos]
            && (MoveTo(moved, first, second) == lane <==> second == pos)
  {
    hide FindIndex, UniqueIds, InsertAt, RemoveAt;
    var rest, moved := RemoveAt(lane, pos), MoveTo(lane, pos, first);
    RemovedSize(lane, pos);
    Remaining(lane, pos);
    InsertedIsUnique(rest, first, lane[pos]);
    RemoveInserted(rest, first, lane[pos]);
    IndexOf(moved, first);
    MoveNowhere(lane, pos, second);
  }

  lemma RemovedSize(lane: seq<Card>, pos: nat)
    requires pos < |lane|
    ensures |RemoveAt(lane, pos)| == |lane| - 1
  {
  }

  lemma RemoveInserted(rest: seq<Card>, at: nat, card: Card)
    requires at <= |rest|
    ensures |InsertAt(rest, at, card)| == |rest| + 1 && InsertAt(rest, at, card)[at] == card
    ensures RemoveAt(InsertAt(rest, at, card), at) == rest
  {
  }

  lemma MoveNowhere(lane: seq<Card>, pos: nat, target: nat)
    requires UniqueIds(lane) && pos < |lane| && target < |lane|
    ensures MoveTo(lane, pos, target) == lane <==> target == pos
  {
    if target == pos {
      assert MoveTo(lane, pos, target) == lane;
    } else {
      assert MoveTo(lane, pos, target)[target] == lane[pos] != lane[target];
    }
  }

  /**
   A shift down and back up restores every lane exactly when neither shift meets an empty id, that is when neither
   of the next two cards of the lane has one.
   */
  lemma ShiftDownAndUp(state: State, id: string)
    requires Shiftable(state, id, 1)
    ensures var lane, after := LaneOf(state, id), Run(state, [ShiftRank(id, 1), ShiftRank(id, -1)]);
            var pos := FindIndex(lane, id);
            && 0 <= pos
            && ((forall c :: CardsInColumn(after.cards, c) == CardsInColumn(state.cards, c))
                <==> lane[pos + 1].id != "" && (pos + 2 < |lane| ==> lane[pos + 2].id != ""))
  {
    hide CardsInColumn, FindIndex, MoveTo, RankTarget, Run;
    var lane, col := LaneOf(state, id), state.cards[FindIndex(state.cards, id)].col;
    var after := Run(state, [ShiftRank(id, 1), ShiftRank(id, -1)]);
    forall c ensures c != col ==> CardsInColumn(after.cards, c) == CardsInColumn(state.cards, c) {
      DownAndUpLane(state, id, c);
    }
    DownAndUpLane(state, id, col);
    DownAndUpTarget(lane, FindIndex(lane, id));
  }

  /** What a shift down and back up makes of one lane. */
  lemma DownAndUpLane(state: State, id: string, c: string)
    requires Shiftable(state, id, 1)
    ensures var lane := LaneOf(state, id);
            var pos := FindIndex(lane, id);
            && 0 <= pos && UniqueIds(lane)
            && var first := RankTarget(lane, pos, 1);
               var moved := MoveTo(lane, pos, first);
               && |moved| == |lane| && 0 < first
               && CardsInColumn(Run(state, [ShiftRank(id, 1), ShiftRank(id, -1)]).cards, c)
                  == if c == state.cards[FindIndex(state.cards, id)].col then MoveTo(moved, first, RankTarget(moved, first, -1))
                     else CardsInColumn(state.cards, c)
  {
    hide CardsInColumn, Reduce, FindIndex, MoveTo, Run;
    TwoActions(state, ShiftRank(id, 1), ShiftRank(id, -1));
    var down, lane := Reduce(state, ShiftRank(id, 1)), LaneOf(state, id);
    var col := state.cards[FindIndex(state.cards, id)].col;
    LaneIsUnique(state.cards, col);
    ShiftRankInLane(state, id, 1, col);
    ShiftRankInLane(state, id, 1, c);
    ShiftedCard(state, id, 1);
    var pos := FindIndex(lane, id);
    MoveTwice(lane, pos, RankTarget(lane, pos, 1), pos);
    ShiftRankInLane(down, id, -1, c);
  }

  /** The card comes back to its place exactly when neither of the next two cards has an empty id. */
  lemma DownAndUpTarget(lane: seq<Card>, pos: nat)
    requires UniqueIds(lane) && pos + 1 < |lane| && |MoveTo(lane, pos, RankTarget(lane, pos, 1))| == |lane|
    ensures var first := RankTarget(lane, pos, 1);
            var moved := MoveTo(lane, pos, first);
            && 0 < first
            && (MoveTo(moved, first, RankTarget(moved, first, -1)) == lane
                <==> lane[pos + 1].id != "" && (pos + 2 < |lane| ==> lane[pos + 2].id != ""))
  {
    hide MoveTo, UniqueIds;
    var first := RankTarget(lane, pos, 1);
    MovedBefore(lane, pos, first);
    MoveTwice(lane, pos, first, RankTarget(MoveTo(lane, pos, first), first, -1));
  }

  lemma MovedBefore(lane: seq<Card>, pos: nat, first: nat)
    requires pos < first < |lane|
    ensures |MoveTo(lane, pos, first)| == |lane| && MoveTo(lane, pos, first)[first - 1] == lane[first]
  {
  }

  lemma TwoActions(state: State, a: Action, b: Action)
    ensures Run(state, [a, b]) == Reduce(Reduce(state, a), b)
  {
    hide Reduce;
    assert [a, b][..1] == [a] && [a][..0] == [];
    assert Run(state, [a]) == Reduce(state, a);
  }

  /** A rank shift keeps the card where it can be found, in its column. */
  lemma ShiftedCard(state: State, id: string, dir: int)
    requires UniqueIds(state.cards) && FindIndex(state.cards, id) >= 0
    ensures var after := Reduce(state, ShiftRank(id, dir)).cards;
            && UniqueIds(after) && FindIndex(after, id) >= 0
            && after[FindIndex(after, id)] == state.cards[FindIndex(state.cards, id)]
  {
    hide CardsInColumn, RankBefore, Moved, FindIndex;
    var cards := state.cards;
    var after, i := Reduce(state, ShiftRank(id, dir)).cards, FindIndex(state.cards, id);
    var lane := CardsInColumn(cards, cards[i].col);
    ReduceConserves(state, ShiftRank(id, dir));
    if 0 <= FindIndex(lane, id) + dir < |lane| {
      SameColumnKeepsMembers(cards, id, RankBefore(lane, FindIndex(lane, id) + dir, dir));
    }
    assert cards[i] in after;
    var k :| 0 <= k < |after| && after[k] == cards[i];
    IndexOf(after, k);
  }

  lemma SameColumnKeepsMembers(cards: seq<Card>, id: string, beforeId: Option<string>)
    requires UniqueIds(cards) && FindIndex(cards, id) >= 0
    ensures forall card :: card in Moved(cards, id, cards[FindIndex(cards, id)].col, beforeId) <==> card in cards
  {
    hide Placement, FindIndex;
    var i := FindIndex(cards, id);
    var next := RemoveAt(cards, i);
    var at := Placement(next, id, cards[i].col, beforeId);
    Remaining(cards, i);
    forall card ensures card in InsertAt(next, at, cards[i]) <==> card in next || card == cards[i] {
      assert next == next[..at] + next[at..];
    }
    forall card | card in cards && card.id == id ensures card == cards[i] {
      var k :| 0 <= k < |cards| && cards[k] == card;
      assert k == i;
    }
  }

  lemma ShiftRankMoves(state: State, id: string, dir: int)
    requires Shiftable(state, id, dir)
    ensures var lane := LaneOf(state, id);
            Reduce(state, ShiftRank(id, dir)).cards
            == Moved(state.cards, id, state.cards[FindIndex(state.cards, id)].col, RankBefore(lane, FindIndex(lane, id) + dir, dir))
  {
    hide CardsInColumn, FindIndex, RankBefore, Moved, UniqueIds;
  }

  /** A move inside a lane leaves the other cards of the array in place. */
  lemma MovedArray(cards: seq<Card>, id: string, beforeId: Option<string>)
    requires UniqueIds(cards) && FindIndex(cards, id) >= 0
    ensures var i := FindIndex(cards, id);
            var rest := RemoveAt(cards, i);
            var at, after := Placement(rest, id, cards[i].col, beforeId), Moved(cards, id, cards[i].col, beforeId);
            after == InsertAt(rest, at, cards[i]) && FindIndex(after, id) == at && RemoveAt(after, at) == rest
  {
    hide Placement, FindIndex, UniqueIds, RemoveAt, InsertAt;
    var i := FindIndex(cards, id);
    var rest := RemoveAt(cards, i);
    var at := Placement(rest, id, cards[i].col, beforeId);
    var after := InsertAt(rest, at, cards[i]);
    Remaining(cards, i);
    RemoveInserted(rest, at, cards[i]);
    InsertedIsUnique(rest, at, cards[i]);
    IndexOf(after, at);
  }

  /** A card right after another of its column is the next one of the lane. */
  lemma NextInLane(cards: seq<Card>, i: nat)
    requires UniqueIds(cards) && i + 1 < |cards| && cards[i + 1].col == cards[i].col
    ensures var lane := CardsInColumn(cards, cards[i].col);
            FindIndex(lane, cards[i + 1].id) == FindIndex(lane, cards[i].id) + 1
  {
    hide CardsInColumn, FindIndex, UniqueIds;
    var c := cards[i].col;
    LanePosition(cards, i, c);
    LanePosition(cards, i + 1, c);
    assert cards[..i + 1] == cards[..i] + [cards[i]];
    LaneAppend(cards[..i], [cards[i]], c);
    LaneOfOne(cards[i], c);
  }

  /** After a shift down past the next card, that card is the one to shift up before. */
  lemma ShiftedDown(state: State, id: string)
    requires Shiftable(state, id, 1)
    requires var lane := LaneOf(state, id); RankBefore(lane, FindIndex(lane, id) + 1, 1) != Some("")
    ensures var lane, down := LaneOf(state, id), Reduce(state, ShiftRank(id, 1));
            var pos := FindIndex(lane, id);
            && 0 <= pos && Shiftable(down, id, -1)
            && FindIndex(LaneOf(down, id), id) == pos + 1 && LaneOf(down, id)[pos] == lane[pos + 1]
  {
    hide CardsInColumn, Reduce, FindIndex, MoveTo, UniqueIds;
    var cards, lane := state.cards, LaneOf(state, id);
    var col, pos := cards[FindIndex(cards, id)].col, FindIndex(lane, id);
    ShiftRankInLane(state, id, 1, col);
    LaneIsUnique(cards, col);
    ShiftedCard(state, id, 1);
    MoveTwice(lane, pos, pos + 1, pos);
    MovedBefore(lane, pos, pos + 1);
  }

  /** The next card of the lane, found in the array. */
  lemma NextInArray(state: State, id: string)
    requires Shiftable(state, id, 1)
    ensures var i, lane := FindIndex(state.cards, id), LaneOf(state, id);
            var pos := FindIndex(lane, id);
            && 0 <= pos
            && var next := FindIndex(state.cards, lane[pos + 1].id);
               && next >= 0 && state.cards[next] == lane[pos + 1] && next != i
               && FindIndex(RemoveAt(state.cards, i), lane[pos + 1].id) == if next < i then next else next - 1
  {
    hide CardsInColumn, FindIndex, RemoveAt;
    var cards, i, lane := state.cards, FindIndex(state.cards, id), LaneOf(state, id);
    var col := cards[i].col;
    LanePositionOf(cards, id);
    var pos := FindIndex(lane, id);
    LaneIsUnique(cards, col);
    LaneMembers(cards, col, lane[pos + 1]);
    var next :| 0 <= next < |cards| && cards[next] == lane[pos + 1];
    IndexOf(cards, next);
    assert lane[pos].id != lane[pos + 1].id;
    IndexInRest(cards, i, next);
  }

  /** Where the next two cards of the lane have ids, down and up again puts the card right before the next one of its lane. */
  lemma DownAndUpInArray(state: State, id: string)
    requires Shiftable(state, id, 1)
    ensures var i, lane := FindIndex(state.cards, id), LaneOf(state, id);
            var pos := FindIndex(lane, id);
            && 0 <= pos
            && var next := FindIndex(state.cards, lane[pos + 1].id);
               && next >= 0 && next != i
               && (lane[pos + 1].id != "" && (pos + 2 < |lane| ==> lane[pos + 2].id != "")
                   ==> Run(state, [ShiftRank(id, 1), ShiftRank(id, -1)]).cards
                       == MoveTo(state.cards, i, if next < i then next else next - 1))
  {
    hide CardsInColumn, Reduce, FindIndex, RemoveAt, InsertAt, UniqueIds, Moved;
    var cards, i, lane := state.cards, FindIndex(state.cards, id), LaneOf(state, id);
    var pos, down := FindIndex(lane, id), Reduce(state, ShiftRank(id, 1));
    NextInArray(state, id);
    if lane[pos + 1].id != "" && (pos + 2 < |lane| ==> lane[pos + 2].id != "") {
      TwoActions(state, ShiftRank(id, 1), ShiftRank(id, -1));
      ShiftRankMoves(state, id, 1);
      MovedArray(cards, id, RankBefore(lane, pos + 1, 1));
      ShiftedCard(state, id, 1);
      ShiftedDown(state, id);
      ShiftRankMoves(down, id, -1);
      MovedArray(down.cards, id, RankBefore(LaneOf(down, id), pos, -1));
    }
  }

  /** The next card of the lane is next in the array as well exactly when the next one of the array has the same column. */
  lemma NextInBoth(state: State, id: string)
    requires Shiftable(state, id, 1)
    ensures var i, lane := FindIndex(state.cards, id), LaneOf(state, id);
            && 0 <= FindIndex(lane, id)
            && (FindIndex(state.cards, lane[FindIndex(lane, id) + 1].id) == i + 1
                <==> i + 1 < |state.cards| && state.cards[i + 1].col == state.cards[i].col)
  {
    hide CardsInColumn, FindIndex, RemoveAt, UniqueIds;
    var cards, i, lane := state.cards, FindIndex(state.cards, id), LaneOf(state, id);
    NextInArray(state, id);
    var pos := FindIndex(lane, id);
    LaneMembers(cards, cards[i].col, lane[pos + 1]);
    if i + 1 < |cards| && cards[i + 1].col == cards[i].col {
      NextInLane(cards, i);
      LaneMembers(cards, cards[i].col, cards[i + 1]);
      IndexOf(cards, i + 1);
    }
  }

  /** Down and up again restores the flat array exactly when it restores the lanes and the next card of the lane is next in the array. */
  lemma FlatOrderRestored(state: State, id: string)
    requires Shiftable(state, id, 1)
    ensures var i, lane := FindIndex(state.cards, id), LaneOf(state, id);
            var pos := FindIndex(lane, id);
            && 0 <= pos
            && (Run(state, [ShiftRank(id, 1), ShiftRank(id, -1)]).cards == state.cards
                <==> && lane[pos + 1].id != "" && (pos + 2 < |lane| ==> lane[pos + 2].id != "")
                     && i + 1 < |state.cards| && state.cards[i + 1].col == state.cards[i].col)
  {
    hide CardsInColumn, Reduce, FindIndex, MoveTo, Run, RemoveAt;
    var cards, i, lane := state.cards, FindIndex(state.cards, id), LaneOf(state, id);
    ShiftDownAndUp(state, id);
    DownAndUpInArray(state, id);
    NextInArray(state, id);
    var next := FindIndex(cards, lane[FindIndex(lane, id) + 1].id);
    MoveNowhere(cards, i, if next < i then next else next - 1);
    NextInBoth(state, id);
  }

  // ---- Where the promises end ------------------------------------------------------------------

  const A := Card("a", "x", "")
  const B := Card("b", "y", "")
  const C := Card("c", "x", "")

  lemma LastShiftsDown()
    ensures Moved([A, B, C], "a", "x", None) == [B, C, A]
    ensures CardsInColumn([A, B, C], "x") == [A, C] && FindIndex([A, B, C], "a") == 0
  {
    assert RemoveAt([A, B, C], 0) == [B, C];
    assert LastInColumn([B, C], "x") == 1;
    assert [A, B, C][1..] == [B, C] && [B, C][1..] == [C] && CardsInColumn([C], "x") == [C];
    assert CardsInColumn([B, C], "x") == [C];
  }

  lemma LastShiftsUp()
    ensures Moved([B, C, A], "a", "x", Some("c")) == [B, A, C]
    ensures CardsInColumn([B, C, A], "x") == [C, A] && FindIndex([B, C, A], "a") == 2
  {
    IndexOf([B, C, A], 2);
    IndexOf([B, C], 1);
    assert RemoveAt([B, C, A], 2) == [B, C];
    assert [B, C, A][1..] == [C, A] && [C, A][1..] == [A] && CardsInColumn([A], "x") == [A];
    assert CardsInColumn([C, A], "x") == [C, A];
  }

  /** A card of another lane in between: the lanes are restored, the array is not. */
  lemma FlatOrderIsNotRestored(state: State)
    requires state.cards == [A, B, C]
    ensures Run(state, [ShiftRank("a", 1), ShiftRank("a", -1)]).cards == [B, A, C]
  {
    LastShiftsDown();
    LastShiftsUp();
    IndexOf([A, C], 0);
    IndexOf([C, A], 1);
    hide FindIndex, CardsInColumn, Moved;
    TwoActions(state, ShiftRank("a", 1), ShiftRank("a", -1));
    var down := Reduce(state, ShiftRank("a", 1));
    assert down.cards == [B, C, A];
  }
}
