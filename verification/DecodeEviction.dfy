/** Decode-time eviction that does not look at attention: the tiered and the recency variants. */
module DecodeEviction {
  import opened Basics
  import opened KvCache
  import opened Sliding
  import opened Sparse

  // How the cache addresses what is dropped. Quantized keys cannot be renumbered, and a multimodal
  // cache cannot be addressed by position at all.
  datatype Mode = Renumbering | QuantizedKeys | ByCellIndex

  /** Both variants drop the stretch between a protected prefix and the newest `recent` positions
      and renumber what follows it. */
  function DropMiddle(cells: seq<Cell>, nKv: int, keepTo: nat, recent: nat): seq<Cell> {
    var dropEnd := nKv - recent;
    Shift(Without(cells, Range(keepTo, dropEnd)), dropEnd, nKv, -(dropEnd - keepTo))
  }

  lemma DropMiddleIsCut(cells: seq<Cell>, nKv: nat, keepTo: nat, recent: nat)
    requires keepTo + recent <= nKv
    ensures DropMiddle(cells, nKv, keepTo, recent) == Cut(cells, keepTo, nKv - recent - keepTo, nKv)
  {
  }

  /** What either variant does once it has decided to drop. */
  function Dropped(cells: seq<Cell>, nKv: int, keepTo: nat, recent: nat, mode: Mode): seq<Cell> {
    match mode
    case Renumbering => DropMiddle(cells, nKv, keepTo, recent)
    case QuantizedKeys => Without(cells, Range(keepTo, nKv - recent))
    case ByCellIndex => cells
  }

  /** The shared tail of both variants. */
  method Drop(cache: Cache, nKv: nat, keepTo: nat, recent: nat, mode: Mode) returns (evicted: nat)
    requires keepTo + recent <= nKv && mode != ByCellIndex
    modifies cache
    ensures cache.cells == Dropped(old(cache.cells), nKv, keepTo, recent, mode)
    ensures evicted == nKv - recent - keepTo
  {
    var dropStart := keepTo;
    var dropEnd := nKv - recent;
    evicted := 0;
    if dropEnd > dropStart {
      cache.SeqRm(dropStart, dropEnd);
      evicted := dropEnd - dropStart;
      if mode != QuantizedKeys {
        cache.SeqAdd(dropEnd, nKv, 0 - evicted);
      }
    } else {
      NothingToDrop(cache.cells, nKv, keepTo, recent, mode);
    }
  }

  lemma NothingToDrop(cells: seq<Cell>, nKv: nat, keepTo: nat, recent: nat, mode: Mode)
    requires keepTo + recent == nKv
    ensures Dropped(cells, nKv, keepTo, recent, mode) == cells
  {
    WithoutNone(cells, Range(keepTo, keepTo));
    DropMiddleIsCut(cells, nKv, keepTo, recent);
    CutNothing(cells, keepTo, nKv);
    hide Without, Cut, DropMiddle;
  }

  /** Without renumbering the extent stays what it is as long as something recent stays, so it grows by
      one with every token decoded. */
  lemma QuantizedKeepsExtent(cells: seq<Cell>, nKv: nat, keepTo: nat, recent: nat)
    requires cells != [] && PosMax(cells) == nKv - 1 && recent > 0 && keepTo + recent <= nKv
    ensures PosMax(Dropped(cells, nKv, keepTo, recent, QuantizedKeys)) == nKv - 1
  {
    LastStays(cells, keepTo, nKv - recent);
    hide Without;
  }

  /** Renumbering changes positions only. */
  lemma DroppedSize(cells: seq<Cell>, nKv: int, keepTo: nat, recent: nat)
    ensures |Dropped(cells, nKv, keepTo, recent, QuantizedKeys)| == |Dropped(cells, nKv, keepTo, recent, Renumbering)|
  {
    hide Without, Shift;
  }

  lemma DropMiddleDense(prefix: seq<Cell>, tokens: seq<int>, nKv: int, keepTo: nat, recent: nat)
    requires forall i :: 0 <= i < |prefix| ==> prefix[i].pos < keepTo
    requires recent <= |tokens| && nKv == keepTo + |tokens|
    ensures DropMiddle(prefix + Dense(tokens, keepTo), nKv, keepTo, recent)
         == prefix + Dense(tokens[|tokens| - recent..], keepTo)
  {
    var tail, drop := Dense(tokens, keepTo), |tokens| - recent;
    var cells := prefix + tail;
    hide Without, Range;
    CutStretch(cells, |prefix|, |prefix| + drop, keepTo, keepTo + drop);
    assert cells[..|prefix|] == prefix && cells[|prefix| + drop..] == tail[drop..];
    hide Shift;
    ShiftDown(prefix, tokens, keepTo, drop);
  }

  lemma ShiftDown(prefix: seq<Cell>, tokens: seq<int>, keepTo: nat, drop: nat)
    requires forall i :: 0 <= i < |prefix| ==> prefix[i].pos < keepTo
    requires drop <= |tokens|
    ensures Shift(prefix + Dense(tokens, keepTo)[drop..], keepTo + drop, keepTo + |tokens|, 0 - drop)
         == prefix + Dense(tokens[drop..], keepTo)
  {
    hide Shift;
  }

  // ----- the tiered variant -----

  /** The budget and the hysteresis threshold of the tiered variant. */
  function Threshold(nAnchored: nat, recentBudget: nat): nat {
    var total := nAnchored + recentBudget;
    total + total / 4
  }

  /** The cells after a tiered eviction at extent nKv. */
  function Tiered(cells: seq<Cell>, nKv: int, nAnchored: nat, recentBudget: nat, mode: Mode): seq<Cell> {
    if nKv <= Threshold(nAnchored, recentBudget) then cells else Dropped(cells, nKv, nAnchored, recentBudget, mode)
  }

  /** What one call returns. */
  function TieredEvicted(nKv: nat, nAnchored: nat, recentBudget: nat, mode: Mode): int {
    if mode == ByCellIndex || nKv <= Threshold(nAnchored, recentBudget) then 0 else nKv - recentBudget - nAnchored
  }

  /** apply_tiered_decode_eviction; past the threshold the stretch to drop is never empty. */
  method ApplyTiered(cache: Cache, nKv: nat, nAnchored: nat, recentBudget: nat, mode: Mode) returns (evicted: nat)
    modifies cache
    ensures cache.cells == Tiered(old(cache.cells), nKv, nAnchored, recentBudget, mode)
    ensures evicted == TieredEvicted(nKv, nAnchored, recentBudget, mode)
  {
    evicted := 0;
    if mode != ByCellIndex {
      var totalBudget := nAnchored + recentBudget;
      if nKv > totalBudget + totalBudget / 4 {
        evicted := Drop(cache, nKv, nAnchored, recentBudget, mode);
      }
    }
  }

  /** The anchors, below nAnchored and where the prefill left them. */
  ghost predicate AreAnchors(anchors: seq<Cell>, nAnchored: nat) {
    Increasing(anchors) && nAnchored == PosMax(anchors) + 1
  }

  /** After the anchors come the newest `held` decode tokens, in order, at consecutive positions. */
  ghost predicate HoldsTail(cells: seq<Cell>, anchors: seq<Cell>, nAnchored: nat, decoded: seq<int>, held: nat) {
    && held <= |decoded|
    && cells == anchors + Dense(decoded[|decoded| - held..], nAnchored)
  }

  /** How many decode tokens are held after one more step. */
  function HeldAfter(nAnchored: nat, held: nat, recentBudget: nat): nat {
    if nAnchored + held + 1 > Threshold(nAnchored, recentBudget) then recentBudget else held + 1
  }

  lemma PosMaxOfTail(anchors: seq<Cell>, nAnchored: nat, tokens: seq<int>)
    requires AreAnchors(anchors, nAnchored)
    ensures PosMax(anchors + Dense(tokens, nAnchored)) == nAnchored + |tokens| - 1
  {
    if tokens == [] {
      assert anchors + Dense(tokens, nAnchored) == anchors;
    }
  }

  /** Decoding a token lengthens the tail by that token. */
  lemma AppendToTail(cells: seq<Cell>, anchors: seq<Cell>, nAnchored: nat, decoded: seq<int>, held: nat, token: int)
    requires AreAnchors(anchors, nAnchored) && HoldsTail(cells, anchors, nAnchored, decoded, held)
    ensures HoldsTail(Append(cells, token), anchors, nAnchored, decoded + [token], held + 1)
    ensures PosMax(Append(cells, token)) == nAnchored + held
  {
    var tail := decoded[|decoded| - held..];
    PosMaxOfTail(anchors, nAnchored, tail);
    assert (decoded + [token])[|decoded| - held..] == tail + [token];
    assert Dense(tail + [token], nAnchored) == Dense(tail, nAnchored) + [Cell(nAnchored + |tail|, token)];
  }

  lemma AnchorsBelow(anchors: seq<Cell>, nAnchored: nat)
    requires AreAnchors(anchors, nAnchored)
    ensures forall i :: 0 <= i < |anchors| ==> anchors[i].pos < nAnchored
  {
  }

  lemma SuffixOfSuffix(s: seq<int>, m: nat, n: nat)
    requires n <= m <= |s|
    ensures s[|s| - m..][m - n..] == s[|s| - n..]
  {
  }

  lemma TrimmedTail(cells: seq<Cell>, anchors: seq<Cell>, nAnchored: nat, all: seq<int>, held: nat, recentBudget: nat)
    requires AreAnchors(anchors, nAnchored) && recentBudget <= held
    requires HoldsTail(cells, anchors, nAnchored, all, held)
    ensures HoldsTail(DropMiddle(cells, nAnchored + held, nAnchored, recentBudget), anchors, nAnchored, all, recentBudget)
  {
    AnchorsBelow(anchors, nAnchored);
    hide Dense, DropMiddle, AreAnchors;
    SuffixOfSuffix(all, held, recentBudget);
    DropMiddleDense(anchors, all[|all| - held..], nAnchored + held, nAnchored, recentBudget);
  }

  /** The tiered eviction keeps the tail of the last `held` tokens when it is short enough and
      cuts it to the recent budget otherwise. */
  lemma TieredKeepsTail(cells: seq<Cell>, anchors: seq<Cell>, nKv: int, nAnchored: nat, all: seq<int>, held: nat,
                        recentBudget: nat)
    requires AreAnchors(anchors, nAnchored) && HoldsTail(cells, anchors, nAnchored, all, held)
    requires nKv == nAnchored + held
    ensures HoldsTail(Tiered(cells, nKv, nAnchored, recentBudget, Renumbering), anchors, nAnchored, all,
                      if nKv > Threshold(nAnchored, recentBudget) then recentBudget else held)
  {
    if nKv > Threshold(nAnchored, recentBudget) {
      TrimmedTail(cells, anchors, nAnchored, all, held, recentBudget);
    }
  }

  /** How many decode tokens are held after a run with the given budgets, one per step. */
  function Held(nAnchored: nat, budgets: seq<nat>): nat {
    if budgets == [] then 0
    else
      var n := |budgets| - 1;
      HeldAfter(nAnchored, Held(nAnchored, budgets[..n]), budgets[n])
  }

  function TieredTrim(nAnchored: nat, recentBudget: nat): Option<Trim> {
    Some(Trim(Threshold(nAnchored, recentBudget), recentBudget))
  }

  function TieredTrims(nAnchored: nat, budgets: seq<nat>): (r: seq<Option<Trim>>)
    ensures |r| == |budgets|
  {
    seq(|budgets|, i requires 0 <= i < |budgets| => TieredTrim(nAnchored, budgets[i]))
  }

  /** A run of the tiered variant, one budget per step. Renumbered, the anchors never move, the tail is
      the newest tokens in order, and the evictions reported account for every token no longer held. With
      quantized keys one stretch behind the anchors is missing, and each eviction reports a span that
      starts from the anchors again. By cell index nothing is done at all. */
  ghost predicate TieredState(cells: seq<Cell>, anchors: seq<Cell>, decoded: seq<int>, budgets: seq<nat>,
                              nAnchored: nat, mode: Mode, nTotalEvicted: int) {
    && AreAnchors(anchors, nAnchored)
    && match mode
       case Renumbering =>
         && HoldsTail(cells, anchors, nAnchored, decoded, Held(nAnchored, budgets))
         && nTotalEvicted + Held(nAnchored, budgets) == |decoded|
       case QuantizedKeys =>
         && HoldsThin(cells, anchors, decoded, nAnchored, ThinAfter(nAnchored, nAnchored, TieredTrims(nAnchored, budgets)))
         && nTotalEvicted == ReturnedBy(nAnchored, nAnchored, TieredTrims(nAnchored, budgets))
       case ByCellIndex =>
         cells == Uncut(anchors, decoded) && nTotalEvicted == 0
  }

  lemma TieredStart(anchors: seq<Cell>, nAnchored: nat, mode: Mode)
    requires AreAnchors(anchors, nAnchored)
    ensures TieredState(anchors, anchors, [], [], nAnchored, mode, 0)
  {
    NothingDecoded(anchors, nAnchored);
    HoldsThinStart(anchors, [], nAnchored);
    assert Uncut(anchors, []) == anchors;
    hide HoldsThin, HoldsTail;
  }

  lemma TieredNext(cells: seq<Cell>, anchors: seq<Cell>, decoded: seq<int>, budgets: seq<nat>, nAnchored: nat,
                   mode: Mode, nTotalEvicted: int, token: int, recentBudget: nat)
    requires TieredState(cells, anchors, decoded, budgets, nAnchored, mode, nTotalEvicted)
    ensures var grown := Append(cells, token);
      var nKv := PosMax(grown) + 1;
      && nKv >= 0
      && TieredState(Tiered(grown, nKv, nAnchored, recentBudget, mode), anchors, decoded + [token],
                     budgets + [recentBudget], nAnchored, mode,
                     nTotalEvicted + TieredEvicted(nKv, nAnchored, recentBudget, mode))
  {
    hide Append, Tiered, TieredEvicted, HoldsTail, HoldsThin, ThinAfter, ReturnedBy, Held, AreAnchors, Uncut, PosMax;
    match mode
    case Renumbering =>
      TieredTailNext(cells, anchors, decoded, Held(nAnchored, budgets), nAnchored, token, recentBudget);
      HeldSnoc(nAnchored, budgets, recentBudget);
    case QuantizedKeys =>
      TieredThinNext(cells, anchors, decoded, budgets, nAnchored, token, recentBudget);
    case ByCellIndex =>
      AnchorsOrdered(anchors, nAnchored);
      UncutAppend(anchors, decoded, token);
      ByIndexDoesNothing(Append(cells, token), PosMax(Append(cells, token)) + 1, nAnchored, recentBudget);
  }

  lemma ByIndexDoesNothing(cells: seq<Cell>, nKv: nat, nAnchored: nat, recentBudget: nat)
    ensures Tiered(cells, nKv, nAnchored, recentBudget, ByCellIndex) == cells
    ensures TieredEvicted(nKv, nAnchored, recentBudget, ByCellIndex) == 0
  {
  }

  lemma AnchorsOrdered(anchors: seq<Cell>, nAnchored: nat)
    requires AreAnchors(anchors, nAnchored)
    ensures Increasing(anchors)
  {
  }

  lemma UncutAppend(start: seq<Cell>, done: seq<int>, token: int)
    requires Increasing(start)
    ensures Append(Uncut(start, done), token) == Uncut(start, done + [token])
    ensures PosMax(Uncut(start, done + [token])) + 1 >= 0
  {
    UncutShape(start, done);
    UncutShape(start, done + [token]);
    UncutNext(start, done, token);
    hide Uncut, Increasing, Total;
  }

  lemma TieredTailNext(cells: seq<Cell>, anchors: seq<Cell>, decoded: seq<int>, held: nat, nAnchored: nat,
                       token: int, recentBudget: nat)
    requires AreAnchors(anchors, nAnchored) && HoldsTail(cells, anchors, nAnchored, decoded, held)
    ensures var grown := Append(cells, token);
      var nKv := PosMax(grown) + 1;
      && nKv >= 0
      && HoldsTail(Tiered(grown, nKv, nAnchored, recentBudget, Renumbering), anchors, nAnchored, decoded + [token],
                   HeldAfter(nAnchored, held, recentBudget))
      && TieredEvicted(nKv, nAnchored, recentBudget, Renumbering) == held + 1 - HeldAfter(nAnchored, held, recentBudget)
  {
    hide Tiered, Append, PosMax, AreAnchors, HoldsTail;
    AppendToTail(cells, anchors, nAnchored, decoded, held, token);
    TieredKeepsTail(Append(cells, token), anchors, nAnchored + held + 1, nAnchored, decoded + [token], held + 1, recentBudget);
  }

  lemma HeldSnoc(nAnchored: nat, budgets: seq<nat>, b: nat)
    ensures Held(nAnchored, budgets + [b]) == HeldAfter(nAnchored, Held(nAnchored, budgets), b)
  {
    assert (budgets + [b])[..|budgets|] == budgets;
  }

  lemma TrimsSnoc(nAnchored: nat, budgets: seq<nat>, b: nat)
    ensures TieredTrims(nAnchored, budgets + [b]) == TieredTrims(nAnchored, budgets) + [TieredTrim(nAnchored, b)]
  {
  }

  lemma TieredThinNext(cells: seq<Cell>, anchors: seq<Cell>, decoded: seq<int>, budgets: seq<nat>, nAnchored: nat,
                       token: int, recentBudget: nat)
    requires AreAnchors(anchors, nAnchored)
    requires HoldsThin(cells, anchors, decoded, nAnchored, ThinAfter(nAnchored, nAnchored, TieredTrims(nAnchored, budgets)))
    ensures var grown, trims := Append(cells, token), TieredTrims(nAnchored, budgets + [recentBudget]);
      var nKv := PosMax(grown) + 1;
      && nKv >= 0
      && HoldsThin(Tiered(grown, nKv, nAnchored, recentBudget, QuantizedKeys), anchors, decoded + [token], nAnchored,
                   ThinAfter(nAnchored, nAnchored, trims))
      && ReturnedBy(nAnchored, nAnchored, trims) ==
         ReturnedBy(nAnchored, nAnchored, TieredTrims(nAnchored, budgets)) + TieredEvicted(nKv, nAnchored, recentBudget, QuantizedKeys)
  {
    hide *;
    var trims, trim := TieredTrims(nAnchored, budgets), TieredTrim(nAnchored, recentBudget);
    TrimsSnoc(nAnchored, budgets, recentBudget);
    ThinSnoc(nAnchored, nAnchored, trims, trim);
    TieredFits(anchors, nAnchored, recentBudget);
    HoldsThinNext(cells, anchors, decoded, token, nAnchored, ThinAfter(nAnchored, nAnchored, trims), trim);
    TieredIsTrim(Append(cells, token), PosMax(Append(cells, token)) + 1, nAnchored, recentBudget);
  }

  lemma TieredFits(anchors: seq<Cell>, nAnchored: nat, recentBudget: nat)
    requires AreAnchors(anchors, nAnchored)
    ensures Fits(TieredTrim(nAnchored, recentBudget), anchors, nAnchored) && PosMax(anchors) + 1 == nAnchored
  {
  }

  lemma TieredIsTrim(cells: seq<Cell>, nKv: nat, nAnchored: nat, recentBudget: nat)
    ensures Tiered(cells, nKv, nAnchored, recentBudget, QuantizedKeys)
         == Trimmed(cells, nKv, nAnchored, TieredTrim(nAnchored, recentBudget))
    ensures TieredEvicted(nKv, nAnchored, recentBudget, QuantizedKeys) == Returned(nKv, nAnchored, TieredTrim(nAnchored, recentBudget))
  {
    hide Without, Range;
  }

  /** One decode step followed by the tiered eviction for that step's budget. */
  method TieredStep(cache: Cache, token: int, nAnchored: nat, recentBudget: nat, mode: Mode, ghost anchors: seq<Cell>,
                    ghost decoded: seq<int>, ghost budgets: seq<nat>, ghost nTotalEvicted: int)
    returns (evicted: nat)
    requires TieredState(cache.cells, anchors, decoded, budgets, nAnchored, mode, nTotalEvicted)
    modifies cache
    ensures TieredState(cache.cells, anchors, decoded + [token], budgets + [recentBudget], nAnchored, mode,
                        nTotalEvicted + evicted)
  {
    hide Tiered, Append, PosMax, Threshold, TieredState;
    TieredNext(cache.cells, anchors, decoded, budgets, nAnchored, mode, nTotalEvicted, token, recentBudget);
    cache.Decode(token);
    var nKv := cache.SeqPosMax() + 1;
    evicted := ApplyTiered(cache, nKv, nAnchored, recentBudget, mode);
  }

  /** The decode loop, one budget per step. */
  method TieredRun(cache: Cache, tokens: seq<int>, budgets: seq<nat>, nAnchored: nat, mode: Mode, ghost anchors: seq<Cell>)
    returns (nTotalEvicted: nat)
    requires |budgets| == |tokens| && AreAnchors(anchors, nAnchored) && cache.cells == anchors
    modifies cache
    ensures TieredState(cache.cells, anchors, tokens, budgets, nAnchored, mode, nTotalEvicted)
  {
    hide *;
    nTotalEvicted := 0;
    TieredStart(anchors, nAnchored, mode);
    assert tokens[..0] == [] && budgets[..0] == [];
    for step := 0 to |tokens|
      invariant TieredState(cache.cells, anchors, tokens[..step], budgets[..step], nAnchored, mode, nTotalEvicted)
    {
      assert tokens[..step + 1] == tokens[..step] + [tokens[step]];
      assert budgets[..step + 1] == budgets[..step] + [budgets[step]];
      var evicted := TieredStep(cache, tokens[step], nAnchored, budgets[step], mode, anchors, tokens[..step],
                                budgets[..step], nTotalEvicted);
      nTotalEvicted := nTotalEvicted + evicted;
    }
    assert tokens[..|tokens|] == tokens && budgets[..|budgets|] == budgets;
  }

  lemma NothingDecoded(anchors: seq<Cell>, nAnchored: nat)
    ensures HoldsTail(anchors, anchors, nAnchored, [], 0)
  {
    assert anchors + Dense([], nAnchored) == anchors;
  }

  /** Step j of the run evicts. */
  predicate TieredEvicts(nAnchored: nat, budgets: seq<nat>, j: nat)
    requires j < |budgets|
  {
    nAnchored + Held(nAnchored, budgets[..j]) + 1 > Threshold(nAnchored, budgets[j])
  }

  /** A step evicts exactly when its token takes the extent past the budget and a quarter; then the
      extent is the budget, and otherwise one more. So it is always within a quarter of the budget. */
  lemma TieredExtent(nAnchored: nat, budgets: seq<nat>)
    requires budgets != []
    ensures var last := |budgets| - 1;
      var b, before, after := nAnchored + budgets[last], nAnchored + Held(nAnchored, budgets[..last]), nAnchored + Held(nAnchored, budgets);
      && (TieredEvicts(nAnchored, budgets, last) <==> before + 1 > b + b / 4)
      && after == (if before + 1 > b + b / 4 then b else before + 1)
      && after <= b + b / 4
  {
  }

  ghost predicate ConstantFrom<T>(s: seq<T>, i: nat, x: T) {
    forall j :: i <= j < |s| ==> s[j] == x
  }

  /** Under one budget the extent of the run is the saw tooth. */
  lemma {:induction false} HeldIsSawTooth(nAnchored: nat, budgets: seq<nat>, i: nat, t: nat, recentBudget: nat)
    requires i + t <= |budgets| && ConstantFrom(budgets, i, recentBudget)
    ensures nAnchored + Held(nAnchored, budgets[..i + t])
         == ExtentAt(Threshold(nAnchored, recentBudget), nAnchored + recentBudget, nAnchored + Held(nAnchored, budgets[..i]), t)
  {
    hide Threshold;
    if t > 0 {
      HeldIsSawTooth(nAnchored, budgets, i, t - 1, recentBudget);
      assert budgets[..i + t][..i + t - 1] == budgets[..i + t - 1];
    }
  }

  /** Once the budget of a run stays at b, its evictions are exactly b / 4 + 1 steps apart. */
  lemma TieredSpacing(nAnchored: nat, budgets: seq<nat>, i: nat, j: nat, recentBudget: nat)
    requires i < j < |budgets| && ConstantFrom(budgets, i, recentBudget) && TieredEvicts(nAnchored, budgets, i)
    ensures var gap := (nAnchored + recentBudget) / 4 + 1;
      && (j < i + gap ==> !TieredEvicts(nAnchored, budgets, j))
      && (j == i + gap ==> TieredEvicts(nAnchored, budgets, j))
  {
    var limit, low := Threshold(nAnchored, recentBudget), nAnchored + recentBudget;
    var extent := nAnchored + Held(nAnchored, budgets[..i]);
    HeldIsSawTooth(nAnchored, budgets, i, j - i, recentBudget);
    assert TrimsAt(limit, low, extent, 0);
    assert budgets[..i + (j - i)] == budgets[..j];
    hide Held, ExtentAt;
    TrimSpacing(limit, low, extent, 0, j - i);
  }

  /** With quantized keys no more than the budget is live after a step that evicts. */
  lemma TieredThinBound(cells: seq<Cell>, anchors: seq<Cell>, decoded: seq<int>, budgets: seq<nat>, nAnchored: nat,
                        nTotalEvicted: int)
    requires budgets != [] && TieredState(cells, anchors, decoded, budgets, nAnchored, QuantizedKeys, nTotalEvicted)
    requires var last := |budgets| - 1;
      nAnchored + ThinAfter(nAnchored, nAnchored, TieredTrims(nAnchored, budgets[..last])).since + 1
      > Threshold(nAnchored, budgets[last])
    ensures |cells| <= nAnchored + budgets[|budgets| - 1]
  {
    hide *;
    TieredThinIs(cells, anchors, decoded, budgets, nAnchored, nTotalEvicted);
    LastTrim(nAnchored, budgets);
    TieredFits(anchors, nAnchored, budgets[|budgets| - 1]);
    EvictionBounds(cells, anchors, decoded, nAnchored, TieredTrims(nAnchored, budgets));
  }

  lemma TieredThinIs(cells: seq<Cell>, anchors: seq<Cell>, decoded: seq<int>, budgets: seq<nat>, nAnchored: nat,
                     nTotalEvicted: int)
    requires TieredState(cells, anchors, decoded, budgets, nAnchored, QuantizedKeys, nTotalEvicted)
    ensures AreAnchors(anchors, nAnchored)
    ensures HoldsThin(cells, anchors, decoded, nAnchored, ThinAfter(nAnchored, nAnchored, TieredTrims(nAnchored, budgets)))
  {
    hide HoldsThin, AreAnchors;
  }

  lemma LastTrim(nAnchored: nat, budgets: seq<nat>)
    requires budgets != []
    ensures var trims, last := TieredTrims(nAnchored, budgets), |budgets| - 1;
      && trims[..last] == TieredTrims(nAnchored, budgets[..last])
      && trims[last] == TieredTrim(nAnchored, budgets[last])
      && trims[last].Some? && trims[last].value.recent == budgets[last]
      && forall n: nat :: n > Threshold(nAnchored, budgets[last]) ==> Evicts(n, trims[last])
  {
    hide Threshold;
  }

  /** Under one budget the evictions reported with quantized keys are the cells that went exactly up to the
      first eviction. */
  lemma TieredCountedAgain(cells: seq<Cell>, anchors: seq<Cell>, decoded: seq<int>, budgets: seq<nat>, nAnchored: nat,
                           nTotalEvicted: int, recentBudget: nat)
    requires TieredState(cells, anchors, decoded, budgets, nAnchored, QuantizedKeys, nTotalEvicted)
    requires |budgets| == |decoded| && recentBudget > 0 && ConstantFrom(budgets, 0, recentBudget)
    ensures |anchors| + |decoded| - |cells| == nTotalEvicted <==>
            Evictions(nAnchored, TieredTrim(nAnchored, recentBudget).value, |decoded|) <= 1
  {
    var trims, trim := TieredTrims(nAnchored, budgets), TieredTrim(nAnchored, recentBudget).value;
    assert Always(trims, Some(trim));
    assert PosMax(anchors) + 1 == nAnchored && Increasing(anchors);
    hide HoldsThin, ThinAfter, ReturnedBy, AreAnchors, TieredTrims, Increasing, PosMax, Positions, Uncut, Total, Range;
    TailIsLive(anchors, decoded);
    CountedAgain(cells, anchors, decoded, nAnchored, trims, trim);
  }

  lemma TailIsLive(start: seq<Cell>, done: seq<int>)
    requires PosMax(start) + 1 >= 0
    ensures Range(PosMax(start) + 1, Total(start, done)) <= Positions(Uncut(start, done))
  {
    var first := PosMax(start) + 1;
    hide Positions, Range, PosMax;
    forall p | first <= p < first + |done|
      ensures p in Positions(Uncut(start, done))
    {
      var c := Uncut(start, done)[|start| + p - first];
      HasPosition(Uncut(start, done), c);
    }
  }

  lemma HasPosition(cells: seq<Cell>, c: Cell)
    requires c in cells
    ensures c.pos in Positions(cells)
  {
  }

  // ----- the recency variant -----

  function RecencyThreshold(nSink: nat, nRecent: nat): nat { ((nSink + nRecent) * 3) / 2 }

  /** The recent window that the decode loop asks for. */
  function RecentOf(k: int, nSink: nat): nat
    requires k > 0
    ensures RecentOf(k, nSink) > 0
  {
    if k - nSink < 1 then k else k - nSink
  }

  function Recency(cells: seq<Cell>, nKv: int, nSink: nat, nRecent: nat, mode: Mode): seq<Cell> {
    if nKv <= RecencyThreshold(nSink, nRecent) then cells else Dropped(cells, nKv, nSink, nRecent, mode)
  }

  /** What one call returns. */
  function RecencyEvicted(nKv: nat, nSink: nat, nRecent: nat, mode: Mode): int {
    if mode == ByCellIndex || nKv <= RecencyThreshold(nSink, nRecent) then 0 else nKv - nRecent - nSink
  }

  /** apply_recency_decode_eviction */
  method ApplyRecency(cache: Cache, nKv: nat, nSink: nat, nRecent: nat, mode: Mode) returns (evicted: nat)
    modifies cache
    ensures cache.cells == Recency(old(cache.cells), nKv, nSink, nRecent, mode)
    ensures evicted == RecencyEvicted(nKv, nSink, nRecent, mode)
  {
    evicted := 0;
    if mode != ByCellIndex {
      var budget := nSink + nRecent;
      if nKv > (budget * 3) / 2 {
        evicted := Drop(cache, nKv, nSink, nRecent, mode);
      }
    }
  }

  /** The extent after one more step with the K of that step. */
  function RecencyExtent(k: int, nSink: nat, m: nat): nat {
    if k <= 0 then m + 1
    else NextExtent(RecencyThreshold(nSink, RecentOf(k, nSink)), nSink + RecentOf(k, nSink), m)
  }

  /** The extent after a run with one K per step. */
  function Extents(nSink: nat, start: nat, ks: seq<int>): nat {
    if ks == [] then start
    else
      var n := |ks| - 1;
      RecencyExtent(ks[n], nSink, Extents(nSink, start, ks[..n]))
  }

  /** Whatever has been cut before, a recency eviction widens the cut. */
  lemma RecencyKeepsSpan(cells: seq<Cell>, start: seq<Cell>, done: seq<int>, nSink: nat, m: nat, nRecent: nat)
    requires Spans(cells, start, done, nSink, m) && nRecent > 0
    ensures Spans(Recency(cells, m, nSink, nRecent, Renumbering), start, done, nSink,
                  if m > RecencyThreshold(nSink, nRecent) then nSink + nRecent else m)
  {
    hide Spans;
    if m > RecencyThreshold(nSink, nRecent) {
      DropMiddleIsCut(cells, m, nSink, nRecent);
      SpanCut(cells, start, done, nSink, m, nRecent);
    }
  }

  /** The number returned is at least the number of cells that went, and equal to it exactly when
      the positions it names were all live. */
  lemma RecencyCount(cells: seq<Cell>, nKv: nat, nSink: nat, nRecent: nat, mode: Mode)
    requires Increasing(cells)
    ensures var evicted := RecencyEvicted(nKv, nSink, nRecent, mode);
      var gone := |cells| - |Recency(cells, nKv, nSink, nRecent, mode)|;
      && gone <= evicted
      && (gone == evicted <==> Range(nSink, nSink + evicted) <= Positions(cells))
  {
    hide Positions, Increasing, Cut, DropMiddle, Without, Range;
    if RecencyEvicted(nKv, nSink, nRecent, mode) > 0 {
      DroppedSize(cells, nKv, nSink, nRecent);
      DropMiddleIsCut(cells, nKv, nSink, nRecent);
      CutCount(cells, nSink, nKv - nRecent - nSink, nKv);
    } else {
      assert Range(nSink, nSink + 0) == {};
    }
  }

  function RecencyTrim(nSink: nat, k: int): Option<Trim> {
    if k <= 0 then None else Some(Trim(RecencyThreshold(nSink, RecentOf(k, nSink)), RecentOf(k, nSink)))
  }

  function RecencyTrims(nSink: nat, ks: seq<int>): (r: seq<Option<Trim>>)
    ensures |r| == |ks|
  {
    seq(|ks|, i requires 0 <= i < |ks| => RecencyTrim(nSink, ks[i]))
  }

  /** A run of the recency variant, from any cache whose positions increase and with a K per step.
      Renumbered, one stretch behind the sinks is missing from the uncut cache and the gap is closed, and
      the counts are the positions given up. With quantized keys the gap stays open, and each eviction
      reports a span that starts from the sinks again. By cell index nothing is done at all. */
  ghost predicate RecencyState(cells: seq<Cell>, start: seq<Cell>, done: seq<int>, ks: seq<int>, nSink: nat, mode: Mode,
                               nTotalEvicted: int) {
    && Increasing(start) && PosMax(start) + 1 >= 0
    && var first: nat := PosMax(start) + 1;
       match mode
       case Renumbering =>
         && Spans(cells, start, done, nSink, Extents(nSink, first, ks))
         && nTotalEvicted + Extents(nSink, first, ks) == first + |done|
       case QuantizedKeys =>
         && HoldsThin(cells, start, done, nSink, ThinAfter(first, nSink, RecencyTrims(nSink, ks)))
         && nTotalEvicted == ReturnedBy(first, nSink, RecencyTrims(nSink, ks))
       case ByCellIndex =>
         cells == Uncut(start, done) && nTotalEvicted == 0
  }

  lemma RecencyStart(start: seq<Cell>, nSink: nat, mode: Mode)
    requires Increasing(start)
    ensures RecencyState(start, start, [], [], nSink, mode, 0)
  {
    SpansStart(start, nSink);
    HoldsThinStart(start, [], nSink);
    assert Uncut(start, []) == start;
    hide HoldsThin, Spans, Increasing;
  }

  /** The cells after one step, and what it returns: nothing is called when K is not positive. */
  function RecencyStepped(grown: seq<Cell>, nKv: nat, k: int, nSink: nat, mode: Mode): (seq<Cell>, int) {
    if k <= 0 then (grown, 0)
    else (Recency(grown, nKv, nSink, RecentOf(k, nSink), mode), RecencyEvicted(nKv, nSink, RecentOf(k, nSink), mode))
  }

  lemma RecencyNext(cells: seq<Cell>, start: seq<Cell>, done: seq<int>, ks: seq<int>, nSink: nat, mode: Mode,
                    nTotalEvicted: int, token: int, k: int)
    requires RecencyState(cells, start, done, ks, nSink, mode, nTotalEvicted)
    ensures var grown := Append(cells, token);
      var nKv := PosMax(grown) + 1;
      && nKv >= 0 && Increasing(grown)
      && var (next, evicted) := RecencyStepped(grown, nKv, k, nSink, mode);
         RecencyState(next, start, done + [token], ks + [k], nSink, mode, nTotalEvicted + evicted)
  {
    hide Append, RecencyStepped, Spans, HoldsThin, ThinAfter, ReturnedBy, Extents, Increasing, Uncut, PosMax;
    var first: nat := PosMax(start) + 1;
    match mode
    case Renumbering =>
      RecencySpanNext(cells, start, done, Extents(nSink, first, ks), nSink, token, k);
      ExtentsSnoc(nSink, first, ks, k);
    case QuantizedKeys =>
      RecencyThinNext(cells, start, done, ks, nSink, token, k);
    case ByCellIndex =>
      UncutAppend(start, done, token);
      UncutOrdered(start, done + [token]);
      SteppedByIndex(Append(cells, token), PosMax(Append(cells, token)) + 1, k, nSink);
  }

  lemma UncutOrdered(start: seq<Cell>, done: seq<int>)
    requires Increasing(start)
    ensures Increasing(Uncut(start, done))
  {
    UncutShape(start, done);
    hide Uncut, Increasing;
  }

  lemma SteppedByIndex(grown: seq<Cell>, nKv: nat, k: int, nSink: nat)
    ensures RecencyStepped(grown, nKv, k, nSink, ByCellIndex) == (grown, 0)
  {
  }

  lemma ExtentsSnoc(nSink: nat, start: nat, ks: seq<int>, k: int)
    ensures Extents(nSink, start, ks + [k]) == RecencyExtent(k, nSink, Extents(nSink, start, ks))
  {
    assert (ks + [k])[..|ks|] == ks;
    hide RecencyExtent;
  }

  lemma RecencySpanNext(cells: seq<Cell>, start: seq<Cell>, done: seq<int>, m: nat, nSink: nat, token: int, k: int)
    requires Spans(cells, start, done, nSink, m)
    ensures var grown := Append(cells, token);
      var nKv := PosMax(grown) + 1;
      && nKv >= 0 && Increasing(grown)
      && var (next, evicted) := RecencyStepped(grown, nKv, k, nSink, Renumbering);
         && Spans(next, start, done + [token], nSink, RecencyExtent(k, nSink, m))
         && evicted == m + 1 - RecencyExtent(k, nSink, m)
  {
    hide Append, PosMax, Spans, Increasing, Recency;
    var grown := Append(cells, token);
    SpanGrows(cells, start, done, nSink, m, token);
    SpanOrder(grown, start, done + [token], nSink, m + 1);
    if k > 0 {
      RecencyKeepsSpan(grown, start, done + [token], nSink, m + 1, RecentOf(k, nSink));
    }
  }

  lemma RecencyTrimsSnoc(nSink: nat, ks: seq<int>, k: int)
    ensures RecencyTrims(nSink, ks + [k]) == RecencyTrims(nSink, ks) + [RecencyTrim(nSink, k)]
  {
  }

  lemma RecencyThinNext(cells: seq<Cell>, start: seq<Cell>, done: seq<int>, ks: seq<int>, nSink: nat, token: int, k: int)
    requires PosMax(start) + 1 >= 0
    requires HoldsThin(cells, start, done, nSink, ThinAfter(PosMax(start) + 1, nSink, RecencyTrims(nSink, ks)))
    ensures var grown, trims, first := Append(cells, token), RecencyTrims(nSink, ks + [k]), PosMax(start) + 1;
      var nKv := PosMax(grown) + 1;
      && nKv >= 0 && Increasing(grown)
      && var (next, evicted) := RecencyStepped(grown, nKv, k, nSink, QuantizedKeys);
         && HoldsThin(next, start, done + [token], nSink, ThinAfter(first, nSink, trims))
         && ReturnedBy(first, nSink, trims) == ReturnedBy(first, nSink, RecencyTrims(nSink, ks)) + evicted
  {
    hide *;
    var trims, trim, first: nat := RecencyTrims(nSink, ks), RecencyTrim(nSink, k), PosMax(start) + 1;
    var s := ThinAfter(first, nSink, trims);
    RecencyTrimsSnoc(nSink, ks, k);
    ThinSnoc(first, nSink, trims, trim);
    RecencyFits(start, nSink, k);
    HoldsThinGrows(cells, start, done, token, nSink, s);
    HoldsThinOrder(Append(cells, token), start, done + [token], nSink, Thin(s.since + 1, s.gone));
    HoldsThinNext(cells, start, done, token, nSink, s, trim);
    RecencyIsTrim(Append(cells, token), PosMax(Append(cells, token)) + 1, k, nSink);
  }

  lemma RecencyFits(start: seq<Cell>, nSink: nat, k: int)
    ensures Fits(RecencyTrim(nSink, k), start, nSink)
  {
  }

  lemma RecencyIsTrim(grown: seq<Cell>, nKv: nat, k: int, nSink: nat)
    ensures RecencyStepped(grown, nKv, k, nSink, QuantizedKeys)
         == (Trimmed(grown, nKv, nSink, RecencyTrim(nSink, k)), Returned(nKv, nSink, RecencyTrim(nSink, k)))
  {
    hide Without, Range;
  }

  /** One decode step of the recency variant, from any state that a run can reach. */
  method RecencyStep(cache: Cache, token: int, k: int, nSink: nat, mode: Mode, ghost start: seq<Cell>,
                     ghost done: seq<int>, ghost ks: seq<int>, ghost nTotalEvicted: int)
    returns (evicted: nat)
    requires RecencyState(cache.cells, start, done, ks, nSink, mode, nTotalEvicted)
    modifies cache
    ensures RecencyState(cache.cells, start, done + [token], ks + [k], nSink, mode, nTotalEvicted + evicted)
    ensures var gone := |Append(old(cache.cells), token)| - |cache.cells|;
      && gone <= evicted
      && (gone == evicted <==> Range(nSink, nSink + evicted) <= Positions(Append(old(cache.cells), token)))
  {
    hide Recency, Append, PosMax, RecencyState, Increasing, Positions, RecencyEvicted;
    ghost var grown := Append(cache.cells, token);
    RecencyNext(cache.cells, start, done, ks, nSink, mode, nTotalEvicted, token, k);
    cache.Decode(token);
    evicted := 0;
    var nKv := cache.SeqPosMax() + 1;
    if k > 0 {
      var nRecent := RecentOf(k, nSink);
      RecencyCount(grown, nKv, nSink, nRecent, mode);
      evicted := ApplyRecency(cache, nKv, nSink, nRecent, mode);
    } else {
      assert Range(nSink, nSink + 0) == {};
    }
  }

  /** The decode loop, from any cache whose positions increase and with a K per step. */
  method RecencyRun(cache: Cache, tokens: seq<int>, ks: seq<int>, nSink: nat, mode: Mode, ghost start: seq<Cell>)
    returns (nTotalEvicted: nat)
    requires |ks| == |tokens| && Increasing(start) && cache.cells == start
    modifies cache
    ensures RecencyState(cache.cells, start, tokens, ks, nSink, mode, nTotalEvicted)
  {
    hide *;
    nTotalEvicted := 0;
    RecencyStart(start, nSink, mode);
    assert tokens[..0] == [] && ks[..0] == [];
    for step := 0 to |tokens|
      invariant RecencyState(cache.cells, start, tokens[..step], ks[..step], nSink, mode, nTotalEvicted)
    {
      assert tokens[..step + 1] == tokens[..step] + [tokens[step]];
      assert ks[..step + 1] == ks[..step] + [ks[step]];
      var evicted := RecencyStep(cache, tokens[step], ks[step], nSink, mode, start, tokens[..step], ks[..step], nTotalEvicted);
      nTotalEvicted := nTotalEvicted + evicted;
    }
    assert tokens[..|tokens|] == tokens && ks[..|ks|] == ks;
  }

  /** What a run with quantized keys leaves: the extent has grown by one per step, one stretch behind the
      sinks is missing, and after a step that evicts no more is live than the sinks and that step's window. */
  lemma RecencyThinMeaning(cells: seq<Cell>, start: seq<Cell>, done: seq<int>, ks: seq<int>, nSink: nat, nTotalEvicted: int)
    requires |ks| == |done| && RecencyState(cells, start, done, ks, nSink, QuantizedKeys, nTotalEvicted)
    ensures PosMax(cells) == PosMax(start) + |done|
    ensures var gone := ThinAfter(PosMax(start) + 1, nSink, RecencyTrims(nSink, ks)).gone;
      gone >= nSink && cells == Without(Uncut(start, done), Range(nSink, gone))
    ensures ks != [] && ks[|ks| - 1] > nSink && PosMax(cells) + 1 > ks[|ks| - 1] * 3 / 2 ==> |cells| <= ks[|ks| - 1]
    ensures ks != [] && 0 < ks[|ks| - 1] <= nSink && PosMax(cells) + 1 > (nSink + ks[|ks| - 1]) * 3 / 2 ==>
      |cells| <= nSink + ks[|ks| - 1]
  {
    hide HoldsThin, ThinAfter, ReturnedBy, Increasing, Fits, Spans, Uncut, Without, Range, Total;
    var first, trims: seq<Option<Trim>> := PosMax(start) + 1, RecencyTrims(nSink, ks);
    ExtentOnlyGrows(first, nSink, trims);
    WholeRun(cells, start, done, nSink, ThinAfter(first, nSink, trims));
    WholeRunExtent(cells, start, done, nSink, ThinAfter(first, nSink, trims));
    if ks != [] {
      ExtentOnlyGrows(first, nSink, trims[..|ks| - 1]);
      RecencyFits(start, nSink, ks[|ks| - 1]);
      if Evicts(first + |ks|, trims[|ks| - 1]) {
        EvictionBounds(cells, start, done, nSink, trims);
      }
    }
  }

  /** Under one K, from a start live behind the sinks, the evictions reported with quantized keys are the
      cells that went exactly up to the first eviction. */
  lemma RecencyCountedAgain(cells: seq<Cell>, start: seq<Cell>, done: seq<int>, ks: seq<int>, nSink: nat,
                            nTotalEvicted: int, k: int)
    requires RecencyState(cells, start, done, ks, nSink, QuantizedKeys, nTotalEvicted)
    requires |ks| == |done| && k > 0 && ConstantFrom(ks, 0, k)
    requires Range(nSink, Total(start, done)) <= Positions(Uncut(start, done))
    ensures |start| + |done| - |cells| == nTotalEvicted <==>
            Evictions(PosMax(start) + 1, RecencyTrim(nSink, k).value, |done|) <= 1
  {
    var trims, trim := RecencyTrims(nSink, ks), RecencyTrim(nSink, k).value;
    assert Always(trims, Some(trim));
    hide HoldsThin, ThinAfter, ReturnedBy, RecencyTrims, Increasing, PosMax, Positions, Uncut, Total, Range;
    CountedAgain(cells, start, done, nSink, trims, trim);
  }

  /** What the run leaves: the sinks of the start where they were, the newest tokens in order at the
      end, no more cells gone than counted, and none miscounted exactly when what is missing was
      all live. */
  lemma RecencyRunMeaning(cells: seq<Cell>, start: seq<Cell>, tokens: seq<int>, ks: seq<int>, nSink: nat, nTotalEvicted: int)
    requires RecencyState(cells, start, tokens, ks, nSink, Renumbering, nTotalEvicted)
    ensures var m := Extents(nSink, PosMax(start) + 1, ks);
      && Increasing(cells) && PosMax(cells) == m - 1
      && (forall c: Cell :: c in start && c.pos < nSink ==> c in cells)
      && (m == Total(start, tokens) || nSink < m)
      && EndsWith(cells, Newest(start, tokens, nSink, m), m)
    ensures var gone := |start| + |tokens| - |cells|;
      && gone <= nTotalEvicted
      && (gone == nTotalEvicted <==> Range(nSink, nSink + nTotalEvicted) <= Positions(Uncut(start, tokens)))
  {
    var m := Extents(nSink, PosMax(start) + 1, ks);
    assert forall c: Cell :: c in start ==> c in Uncut(start, tokens);
    assert Total(start, tokens) - m == nTotalEvicted && (m == Total(start, tokens) || nSink < m);
    hide *;
    SpanOrder(cells, start, tokens, nSink, m);
    SpanTail(cells, start, tokens, nSink, m);
    SpanCount(cells, start, tokens, nSink, m);
    forall c: Cell | c in start && c.pos < nSink
      ensures c in cells
    {
      SpanCells(cells, start, tokens, nSink, m, c);
    }
  }

  /** Step j of the run evicts. */
  predicate RecencyEvicts(nSink: nat, start: nat, ks: seq<int>, j: nat)
    requires j < |ks|
  {
    ks[j] > 0 && Extents(nSink, start, ks[..j]) + 1 > RecencyThreshold(nSink, RecentOf(ks[j], nSink))
  }

  /** In terms of K itself: with K > n_sink a step evicts exactly when its token takes the extent past one
      and a half K, and then leaves K; with 0 < K <= n_sink both count n_sink + K. No K, no eviction. */
  lemma RecencyBound(nSink: nat, start: nat, ks: seq<int>)
    requires ks != []
    ensures var last := |ks| - 1;
      var k, before, after := ks[last], Extents(nSink, start, ks[..last]), Extents(nSink, start, ks);
      && (k > nSink ==>
            && (RecencyEvicts(nSink, start, ks, last) <==> before + 1 > k * 3 / 2)
            && after == (if before + 1 > k * 3 / 2 then k else before + 1) <= k * 3 / 2)
      && (0 < k <= nSink ==>
            && (RecencyEvicts(nSink, start, ks, last) <==> before + 1 > (nSink + k) * 3 / 2)
            && after == (if before + 1 > (nSink + k) * 3 / 2 then nSink + k else before + 1) <= (nSink + k) * 3 / 2)
      && (k <= 0 ==> !RecencyEvicts(nSink, start, ks, last) && after == before + 1)
  {
  }

  lemma {:induction false} ExtentsAreSawTooth(nSink: nat, start: nat, ks: seq<int>, i: nat, t: nat, k: int)
    requires i + t <= |ks| && ConstantFrom(ks, i, k) && k > 0
    ensures var nRecent := RecentOf(k, nSink);
      Extents(nSink, start, ks[..i + t])
      == ExtentAt(RecencyThreshold(nSink, nRecent), nSink + nRecent, Extents(nSink, start, ks[..i]), t)
  {
    hide RecencyThreshold, RecentOf;
    if t > 0 {
      ExtentsAreSawTooth(nSink, start, ks, i, t - 1, k);
      assert ks[..i + t][..i + t - 1] == ks[..i + t - 1];
    }
  }

  /** Once the K of a run stays, its evictions are exactly half a budget and one step apart. */
  lemma RecencySpacing(nSink: nat, start: nat, ks: seq<int>, i: nat, j: nat, k: int)
    requires i < j < |ks| && ConstantFrom(ks, i, k) && RecencyEvicts(nSink, start, ks, i)
    ensures var gap := (if k > nSink then k else nSink + k) / 2 + 1;
      && (j < i + gap ==> !RecencyEvicts(nSink, start, ks, j))
      && (j == i + gap ==> RecencyEvicts(nSink, start, ks, j))
  {
    var nRecent := RecentOf(k, nSink);
    var limit, low := RecencyThreshold(nSink, nRecent), nSink + nRecent;
    var extent := Extents(nSink, start, ks[..i]);
    ExtentsAreSawTooth(nSink, start, ks, i, j - i, k);
    assert TrimsAt(limit, low, extent, 0);
    assert ks[..i + (j - i)] == ks[..j];
    hide Extents, ExtentAt;
    TrimSpacing(limit, low, extent, 0, j - i);
  }

  /** Twelve dense cells, four sinks, K = 8 and one token: thirteen is past twelve, so five positions behind
      the sinks go and the sinks and the newest four stay. */
  lemma RecencyOnThirteen(cells: seq<Cell>, prompt: seq<int>, token: int, nTotalEvicted: int)
    requires |prompt| == 12 && RecencyState(cells, Dense(prompt, 0), [token], [8], 4, Renumbering, nTotalEvicted)
    ensures nTotalEvicted == 5 && cells == Dense(prompt[..4] + prompt[9..] + [token], 0)
  {
    assert PosMax(Dense(prompt, 0)) == 11;
    assert [8][..0] == [] && Extents(4, 12, [8]) == 8;
    hide Dense, PosMax, Extents, Spans, Increasing, Ends;
    DenseStartKeepsEnds(cells, prompt, [token], 4, 8);
    EndsOfThirteen(prompt, token);
  }

  lemma EndsOfThirteen(prompt: seq<int>, token: int)
    requires |prompt| == 12
    ensures Ends(prompt + [token], 4, 8) == prompt[..4] + prompt[9..] + [token]
  {
  }
}
