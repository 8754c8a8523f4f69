/**
 Comparing internal positions with a venue's positions: each internal position looks for a unique external
 partner by the most specific identity key they share, and every row of the result is accounted for.
 */
module VenueComparison {
  import opened Basics

  const POSITION_TOLERANCE: real := 0.000001

  datatype MarketType = Perp | Spot | Unknown

  /** `exact` is the confidence of an internal identity. */
  datatype Identity = Identity(
    asset: Option<string>,
    marketType: MarketType,
    marketIndex: Option<int>,
    marketKey: Option<string>,
    marketSymbol: Option<string>,
    exact: bool)

  datatype KeyKind = MarketIndex | MarketKey | MarketSymbol | AssetMarketType

  const PRIORITY: seq<KeyKind> := [MarketIndex, MarketKey, MarketSymbol, AssetMarketType]

  datatype Key = IndexKey(marketType: MarketType, index: int) | TextKey(text: string) | TypedKey(marketType: MarketType, text: string)

  datatype Internal = Internal(
    positionKey: string,
    asset: string,
    marketType: MarketType,
    netQuantity: real,
    identity: Option<Identity>)

  datatype Direction = Long | Short | Undirected
  datatype External = External(side: Direction, baseAssetAmount: Option<real>, identity: Identity)

  datatype ComparisonMode = Exact | Partial | Unsupported
  datatype IdentityStatus = IdentityMatched | IdentityMismatched | NotComparableIdentity
  datatype IdentityComparison = IdentityComparison(status: IdentityStatus, mode: ComparisonMode)

  datatype Status = Matched | Mismatched | NotComparable | InternalOnly | ExternalOnly

  /** One row; positions are named by their place in the two inventories. */
  datatype Row = Row(
    internal: Option<nat>,
    external: Option<nat>,
    status: Status,
    quantityDelta: Option<real>,
    identity: IdentityComparison)

  // ---- Identity keys ----

  function TypedText(marketType: MarketType, text: Option<string>): Option<Key> {
    if marketType == Unknown || text.None? || text.value == "" then None else Some(TypedKey(marketType, text.value))
  }

  /** The candidate an identity offers for one kind of key, if any; both sides build them alike. */
  function Candidate(identity: Identity, kind: KeyKind): Option<Key> {
    match kind
    case MarketIndex =>
      if identity.marketType == Unknown || identity.marketIndex.None? then None
      else Some(IndexKey(identity.marketType, identity.marketIndex.value))
    case MarketKey => if identity.marketKey.None? then None else Some(TextKey(identity.marketKey.value))
    case MarketSymbol => TypedText(identity.marketType, identity.marketSymbol)
    case AssetMarketType => TypedText(identity.marketType, identity.asset)
  }

  predicate ShareKey(a: Identity, b: Identity, kind: KeyKind) {
    Candidate(a, kind).Some? && Candidate(a, kind) == Candidate(b, kind)
  }

  function CompareFrom(a: Identity, b: Identity, kinds: seq<KeyKind>): Option<ComparisonMode> {
    if kinds == [] then None
    else if ShareKey(a, b, kinds[0]) then
      Some(if kinds[0] == MarketIndex || kinds[0] == MarketKey || (kinds[0] == MarketSymbol && a.exact)
           then Exact else Partial)
    else CompareFrom(a, b, kinds[1..])
  }

  function CompareMarketIdentity(internal: Option<Identity>, external: Option<Identity>): IdentityComparison {
    if internal.None? || external.None? then IdentityComparison(NotComparableIdentity, Unsupported)
    else
      var a, b := internal.value, external.value;
      match CompareFrom(a, b, PRIORITY)
      case Some(mode) => IdentityComparison(IdentityMatched, mode)
      case None =>
        if a.marketType == b.marketType && a.marketIndex.Some? && b.marketIndex.Some?
        then IdentityComparison(IdentityMismatched, Exact)
        else if a.marketType == b.marketType && a.marketKey.Some? && b.marketKey.Some?
        then IdentityComparison(IdentityMismatched, Exact)
        else IdentityComparison(NotComparableIdentity, Unsupported)
  }

  // ---- Choosing a partner ----

  datatype Choice = Pair(e: nat) | Ambiguous | NoPartner

  /** Free external positions that share the internal identity's key of this kind, in order. */
  function Matches(a: Identity, kind: KeyKind, externals: seq<External>, taken: seq<bool>): (r: seq<nat>)
    requires |taken| == |externals|
    ensures forall i :: 0 <= i < |r| ==>
      r[i] < |externals| && !taken[r[i]] && ShareKey(a, externals[r[i]].identity, kind)
  {
    if externals == [] then []
    else
      var last := |externals| - 1;
      Matches(a, kind, externals[..last], taken[..last])
      + if !taken[last] && ShareKey(a, externals[last].identity, kind) then [last] else []
  }

  function ChooseFrom(a: Identity, kinds: seq<KeyKind>, externals: seq<External>, taken: seq<bool>): (c: Choice)
    requires |taken| == |externals|
    ensures c.Pair? ==> c.e < |externals| && !taken[c.e]
  {
    if kinds == [] then NoPartner
    else
      var found := Matches(a, kinds[0], externals, taken);
      if |found| == 1 then Pair(found[0])
      else if |found| > 1 then Ambiguous
      else ChooseFrom(a, kinds[1..], externals, taken)
  }

  /** External position `e` is free and shares the internal identity's key of this kind. */
  predicate FreeMatch(a: Identity, kind: KeyKind, externals: seq<External>, taken: seq<bool>, e: int)
    requires |taken| == |externals|
  {
    0 <= e < |externals| && !taken[e] && ShareKey(a, externals[e].identity, kind)
  }

  lemma MatchInFront(a: Identity, kind: KeyKind, externals: seq<External>, taken: seq<bool>, e: int)
    requires |taken| == |externals| > 0
    ensures var last := |externals| - 1;
      FreeMatch(a, kind, externals, taken, e)
      <==> (FreeMatch(a, kind, externals[..last], taken[..last], e)
            || (e == last && !taken[last] && ShareKey(a, externals[last].identity, kind)))
  {
    hide ShareKey;
  }

  lemma {:induction false} MatchesAreFreeMatches(a: Identity, kind: KeyKind, externals: seq<External>, taken: seq<bool>)
    requires |taken| == |externals|
    ensures var found := Matches(a, kind, externals, taken);
      forall e: int :: e in found <==> FreeMatch(a, kind, externals, taken, e)
  {
    hide ShareKey;
    if externals != [] {
      var last := |externals| - 1;
      MatchesAreFreeMatches(a, kind, externals[..last], taken[..last]);
      forall e: int
        ensures e in Matches(a, kind, externals, taken) <==> FreeMatch(a, kind, externals, taken, e)
      {
        MatchInFront(a, kind, externals, taken, e);
      }
    }
  }

  ghost predicate Ascends(s: seq<nat>) {
    forall i, j :: 0 <= i < j < |s| ==> s[i] < s[j]
  }

  lemma {:induction false} MatchesAscend(a: Identity, kind: KeyKind, externals: seq<External>, taken: seq<bool>)
    requires |taken| == |externals|
    ensures Ascends(Matches(a, kind, externals, taken))
  {
    hide ShareKey;
    if externals != [] {
      var last := |externals| - 1;
      MatchesAscend(a, kind, externals[..last], taken[..last]);
      var front := Matches(a, kind, externals[..last], taken[..last]);
      var found := Matches(a, kind, externals, taken);
      assert found == front || found == front + [last];
      forall i, j | 0 <= i < j < |found|
        ensures found[i] < found[j]
      {
        assert found[i] == front[i];
        if j < |front| { assert found[j] == front[j]; }
      }
    }
  }

  ghost predicate AnyMatch(a: Identity, kind: KeyKind, externals: seq<External>, taken: seq<bool>)
    requires |taken| == |externals|
  {
    exists e :: FreeMatch(a, kind, externals, taken, e)
  }

  ghost predicate OnlyMatch(a: Identity, kind: KeyKind, externals: seq<External>, taken: seq<bool>, e: int)
    requires |taken| == |externals|
  {
    forall other :: FreeMatch(a, kind, externals, taken, other) <==> other == e
  }

  /** The first kind of key that some free external position shares. */
  ghost function FirstShared(a: Identity, kinds: seq<KeyKind>, externals: seq<External>, taken: seq<bool>): Option<KeyKind>
    requires |taken| == |externals|
  {
    if kinds == [] then None
    else if AnyMatch(a, kinds[0], externals, taken) then Some(kinds[0])
    else FirstShared(a, kinds[1..], externals, taken)
  }

  lemma SingleElement(found: seq<nat>, e: nat)
    requires Ascends(found)
    ensures found == [e] <==> forall other: int :: other in found <==> other == e
  {
    assert |found| > 0 ==> found[0] in found;
    assert |found| > 1 ==> found[1] in found && found[0] < found[1];
    if found == [e] {
      assert found[0] == e;
    } else if |found| == 1 {
      assert found[0] != e;
    } else if found == [] {
      assert e !in found;
    }
  }

  /** Finding no match or a single one, without the search. */
  lemma MatchCount(a: Identity, kind: KeyKind, externals: seq<External>, taken: seq<bool>)
    requires |taken| == |externals|
    ensures var found := Matches(a, kind, externals, taken);
      && (found == [] <==> !AnyMatch(a, kind, externals, taken))
      && (forall e: nat :: OnlyMatch(a, kind, externals, taken, e) <==> found == [e])
  {
    hide FreeMatch, Matches;
    MatchesAreFreeMatches(a, kind, externals, taken);
    MatchesAscend(a, kind, externals, taken);
    var found := Matches(a, kind, externals, taken);
    if found != [] { assert found[0] in found; }
    forall e: nat
      ensures OnlyMatch(a, kind, externals, taken, e) <==> found == [e]
    {
      SingleElement(found, e);
    }
  }

  /**
   The choice without the search: no partner exactly when no free external shares any key; a pair exactly with the
   only free external that shares the first kind of key shared at all; ambiguous exactly when several share it.
   */
  lemma {:induction false} ChoiceIff(a: Identity, kinds: seq<KeyKind>, externals: seq<External>, taken: seq<bool>)
    requires |taken| == |externals|
    ensures var c, first := ChooseFrom(a, kinds, externals, taken), FirstShared(a, kinds, externals, taken);
      && (c == NoPartner <==> first == None)
      && (forall e: nat :: c == Pair(e) <==> first.Some? && OnlyMatch(a, first.value, externals, taken, e))
      && (c == Ambiguous <==> first.Some? && forall e: nat :: !OnlyMatch(a, first.value, externals, taken, e))
  {
    hide FreeMatch, OnlyMatch, AnyMatch, Matches;
    if kinds != [] {
      var found := Matches(a, kinds[0], externals, taken);
      MatchCount(a, kinds[0], externals, taken);
      if found == [] {
        ChoiceIff(a, kinds[1..], externals, taken);
      } else {
        assert |found| == 1 ==> found == [found[0]];
      }
    }
  }

  function Choose(p: Internal, externals: seq<External>, taken: seq<bool>): (c: Choice)
    requires |taken| == |externals|
    ensures c.Pair? ==> c.e < |externals| && !taken[c.e]
  {
    if p.identity.None? then NoPartner else ChooseFrom(p.identity.value, PRIORITY, externals, taken)
  }

  // ---- Building the rows ----

  datatype Comparison = Comparison(
    rows: seq<Row>,
    taken: seq<bool>,
    matchedCount: nat,
    mismatchedCount: nat,
    exactIdentityCount: nat,
    partialIdentityCount: nat,
    identityGapCount: nat)

  const NOT_ALIGNED: IdentityComparison := IdentityComparison(NotComparableIdentity, Unsupported)

  function ExternalQuantity(e: External): Option<real> {
    match e.baseAssetAmount
    case None => None
    case Some(amount) =>
      Some(match e.side
           case Short => -Abs(amount)
           case Long => Abs(amount)
           case Undirected => amount)
  }

  function QuantityDelta(p: Internal, e: External): Option<real> {
    match ExternalQuantity(e)
    case None => None
    case Some(quantity) => Some(ToFixed(p.netQuantity - quantity, 100000000.0))
  }

  predicate WithinTolerance(delta: Option<real>) {
    delta.None? || Abs(delta.value) <= POSITION_TOLERANCE
  }

  predicate HasSibling(p: Internal, externals: seq<External>, taken: seq<bool>)
    requires |taken| == |externals|
  {
    exists e :: 0 <= e < |externals| && !taken[e]
      && externals[e].identity.asset == Some(p.asset) && externals[e].identity.marketType == p.marketType
  }

  /** `comparisons.some(c => c.internalPosition?.positionKey === position.positionKey)`. */
  predicate KeySeen(internals: seq<Internal>, rows: seq<Row>, key: string) {
    exists r :: 0 <= r < |rows| && rows[r].internal.Some? && rows[r].internal.value < |internals|
      && internals[rows[r].internal.value].positionKey == key
  }

  function PairRow(i: nat, e: nat, p: Internal, x: External): (row: Row)
    ensures row.internal == Some(i) && row.external == Some(e)
  {
    var identity := CompareMarketIdentity(p.identity, Some(x.identity));
    var delta := QuantityDelta(p, x);
    var status := if identity.status == IdentityMismatched then Mismatched
                  else if WithinTolerance(delta) then Matched else Mismatched;
    Row(Some(i), Some(e), status, delta, identity)
  }

  function UnpairedRow(i: nat, status: Status): Row {
    Row(Some(i), None, status, None, NOT_ALIGNED)
  }

  function ExternalRow(e: nat): Row {
    Row(None, Some(e), ExternalOnly, None, NOT_ALIGNED)
  }

  /** The row internal position `i` gets, if any. */
  function RowFor(internals: seq<Internal>, i: nat, externals: seq<External>, taken: seq<bool>, rows: seq<Row>): (r: Option<Row>)
    requires i < |internals| && |taken| == |externals|
    ensures r.Some? ==> r.value.internal == Some(i)
    ensures r.Some? && r.value.external.Some? ==> r.value.external.value < |externals| && !taken[r.value.external.value]
  {
    var p := internals[i];
    match Choose(p, externals, taken)
    case Pair(e) => Some(PairRow(i, e, p, externals[e]))
    case Ambiguous => Some(UnpairedRow(i, NotComparable))
    case NoPartner =>
      if KeySeen(internals, rows, p.positionKey) then None
      else if HasSibling(p, externals, taken) then Some(UnpairedRow(i, NotComparable))
      else Some(UnpairedRow(i, InternalOnly))
  }

  predicate IsPaired(row: Row) {
    row.internal.Some? && row.external.Some?
  }

  /** Appends a row and counts it. */
  function AddRow(c: Comparison, row: Row): Comparison {
    c.(rows := c.rows + [row],
       matchedCount := c.matchedCount + if row.status == Matched then 1 else 0,
       mismatchedCount := c.mismatchedCount + if row.status == Matched || row.status == NotComparable then 0 else 1,
       identityGapCount := c.identityGapCount + if row.status == NotComparable then 1 else 0,
       exactIdentityCount := c.exactIdentityCount + if IsPaired(row) && row.identity.mode == Exact then 1 else 0,
       partialIdentityCount := c.partialIdentityCount + if IsPaired(row) && row.identity.mode == Partial then 1 else 0)
  }

  function StepInternal(c: Comparison, internals: seq<Internal>, i: nat, externals: seq<External>): (r: Comparison)
    requires i < |internals| && |c.taken| == |externals|
    ensures |r.taken| == |externals|
  {
    match RowFor(internals, i, externals, c.taken, c.rows)
    case None => c
    case Some(row) =>
      var counted := AddRow(c, row);
      if row.external.Some? then counted.(taken := c.taken[row.external.value := true]) else counted
  }

  function NothingTaken(n: nat): (r: seq<bool>)
    ensures |r| == n && forall i :: 0 <= i < n ==> !r[i]
  {
    seq(n, _ => false)
  }

  /** The state after the first `n` internal positions. */
  function AfterInternals(internals: seq<Internal>, n: nat, externals: seq<External>): (c: Comparison)
    requires n <= |internals|
    ensures |c.taken| == |externals|
  {
    if n == 0 then Comparison([], NothingTaken(|externals|), 0, 0, 0, 0, 0)
    else StepInternal(AfterInternals(internals, n - 1, externals), internals, n - 1, externals)
  }

  function StepExternal(c: Comparison, e: nat): Comparison
    requires e < |c.taken|
  {
    if c.taken[e] then c else AddRow(c, ExternalRow(e))
  }

  /** The state after all internal positions and the first `n` leftover externals. */
  function AfterExternals(internals: seq<Internal>, externals: seq<External>, n: nat): (c: Comparison)
    requires n <= |externals|
    ensures |c.taken| == |externals|
    ensures c.taken == AfterInternals(internals, |internals|, externals).taken
  {
    if n == 0 then AfterInternals(internals, |internals|, externals)
    else StepExternal(AfterExternals(internals, externals, n - 1), n - 1)
  }

  function Compare(internals: seq<Internal>, externals: seq<External>): Comparison {
    AfterExternals(internals, externals, |externals|)
  }

  // ---- Accounting ----

  /** How many rows show one internal position. */
  function RowsOfInternal(rows: seq<Row>, i: nat): nat {
    if rows == [] then 0
    else RowsOfInternal(rows[..|rows| - 1], i) + if rows[|rows| - 1].internal == Some(i) then 1 else 0
  }

  function RowsOfExternal(rows: seq<Row>, e: nat): nat {
    if rows == [] then 0
    else RowsOfExternal(rows[..|rows| - 1], e) + if rows[|rows| - 1].external == Some(e) then 1 else 0
  }

  function PairedRows(rows: seq<Row>): nat {
    if rows == [] then 0
    else PairedRows(rows[..|rows| - 1]) + if IsPaired(rows[|rows| - 1]) then 1 else 0
  }

  ghost predicate DistinctKeys(internals: seq<Internal>) {
    forall i, j :: 0 <= i < j < |internals| ==> internals[i].positionKey != internals[j].positionKey
  }

  /** Position `i` finds no partner, and an earlier position carries the same key. */
  ghost predicate Shadowed(internals: seq<Internal>, i: nat, externals: seq<External>) {
    && i < |internals|
    && Choose(internals[i], externals, AfterInternals(internals, i, externals).taken) == NoPartner
    && exists j :: 0 <= j < i && internals[j].positionKey == internals[i].positionKey
  }

  function CountStatus(rows: seq<Row>, s: Status): nat {
    if rows == [] then 0
    else CountStatus(rows[..|rows| - 1], s) + if rows[|rows| - 1].status == s then 1 else 0
  }

  function CountPaired(rows: seq<Row>, mode: ComparisonMode): nat {
    if rows == [] then 0
    else
      CountPaired(rows[..|rows| - 1], mode) + if IsPairedAs(rows[|rows| - 1], mode) then 1 else 0
  }

  predicate IsPairedAs(row: Row, mode: ComparisonMode) {
    IsPaired(row) && row.identity.mode == mode
  }

  /** What holds after every step: each counter counts its rows, and together they count them all. */
  ghost predicate Accounted(c: Comparison) {
    && c.matchedCount == CountStatus(c.rows, Matched)
    && c.identityGapCount == CountStatus(c.rows, NotComparable)
    && c.mismatchedCount
       == CountStatus(c.rows, Mismatched) + CountStatus(c.rows, InternalOnly) + CountStatus(c.rows, ExternalOnly)
    && c.exactIdentityCount == CountPaired(c.rows, Exact)
    && c.partialIdentityCount == CountPaired(c.rows, Partial)
    && c.matchedCount + c.mismatchedCount + c.identityGapCount == |c.rows|
    && c.exactIdentityCount + c.partialIdentityCount == PairedRows(c.rows)
  }

  /**
   A paired row's identities match, so only the quantity can make it a mismatch; a row that is not paired compares no
   quantities, and its status names the side that is missing.
   */
  ghost predicate SoundRow(row: Row, internals: seq<Internal>, externals: seq<External>) {
    && (row.internal.Some? || row.external.Some?)
    && (row.internal == None ==> row.status == ExternalOnly && row.quantityDelta == None)
    && (row.external == None ==> (row.status == InternalOnly || row.status == NotComparable) && row.quantityDelta == None)
    && (IsPaired(row) ==> SoundPair(row, internals, externals))
  }

  ghost predicate SoundPair(row: Row, internals: seq<Internal>, externals: seq<External>)
    requires IsPaired(row)
  {
    && row.internal.value < |internals| && row.external.value < |externals|
    && row.identity == CompareMarketIdentity(internals[row.internal.value].identity,
                                             Some(externals[row.external.value].identity))
    && row.identity.status == IdentityMatched && row.identity.mode != Unsupported
    && row.quantityDelta == QuantityDelta(internals[row.internal.value], externals[row.external.value])
    && row.status == (if WithinTolerance(row.quantityDelta) then Matched else Mismatched)
  }

  ghost predicate SoundRows(rows: seq<Row>, internals: seq<Internal>, externals: seq<External>) {
    forall r :: 0 <= r < |rows| ==> SoundRow(rows[r], internals, externals)
  }

  lemma RowAppended(rows: seq<Row>, row: Row, i: nat, e: nat)
    ensures PairedRows(rows + [row]) == PairedRows(rows) + if IsPaired(row) then 1 else 0
    ensures RowsOfInternal(rows + [row], i) == RowsOfInternal(rows, i) + if row.internal == Some(i) then 1 else 0
    ensures RowsOfExternal(rows + [row], e) == RowsOfExternal(rows, e) + if row.external == Some(e) then 1 else 0
  {
    assert (rows + [row])[..|rows + [row]| - 1] == rows;
  }

  lemma CountsAppended(rows: seq<Row>, row: Row)
    ensures forall s :: CountStatus(rows + [row], s) == (CountStatus(rows, s) + if row.status == s then 1 else 0)
    ensures forall mode :: CountPaired(rows + [row], mode) == (CountPaired(rows, mode) + if IsPairedAs(row, mode) then 1 else 0)
  {
    assert (rows + [row])[..|rows + [row]| - 1] == rows;
  }

  /** A chosen partner shares a key, so the identity comparison that follows always matches. */
  lemma {:induction false} ChosenPartnerMatches(a: Identity, kinds: seq<KeyKind>, externals: seq<External>, taken: seq<bool>)
    requires |taken| == |externals|
    ensures var c := ChooseFrom(a, kinds, externals, taken);
      c.Pair? ==>
        && CompareFrom(a, externals[c.e].identity, kinds).Some?
        && CompareFrom(a, externals[c.e].identity, kinds).value != Unsupported
  {
    hide ShareKey;
    if kinds != [] {
      var found := Matches(a, kinds[0], externals, taken);
      if |found| == 0 {
        ChosenPartnerMatches(a, kinds[1..], externals, taken);
      }
    }
  }

  lemma AddRowKeepsAccounts(c: Comparison, row: Row, internals: seq<Internal>, externals: seq<External>)
    requires Accounted(c) && SoundRows(c.rows, internals, externals) && SoundRow(row, internals, externals)
    ensures Accounted(AddRow(c, row)) && SoundRows(AddRow(c, row).rows, internals, externals)
  {
    hide CompareMarketIdentity, QuantityDelta, WithinTolerance, PairedRows, CountStatus, CountPaired;
    RowAppended(c.rows, row, 0, 0);
    CountsAppended(c.rows, row);
  }

  lemma RowForIsSound(internals: seq<Internal>, i: nat, externals: seq<External>, taken: seq<bool>, rows: seq<Row>)
    requires i < |internals| && |taken| == |externals|
    ensures var r := RowFor(internals, i, externals, taken, rows); r.Some? ==> SoundRow(r.value, internals, externals)
  {
    hide HasSibling, KeySeen, QuantityDelta, WithinTolerance, CompareFrom, ChooseFrom;
    var p := internals[i];
    if Choose(p, externals, taken).Pair? {
      ChosenPartnerMatches(p.identity.value, PRIORITY, externals, taken);
    }
  }

  lemma {:induction false} InternalsAccounted(internals: seq<Internal>, n: nat, externals: seq<External>)
    requires n <= |internals|
    ensures var c := AfterInternals(internals, n, externals);
      Accounted(c) && SoundRows(c.rows, internals, externals)
  {
    hide RowFor, SoundRow, Accounted, SoundRows, AddRow;
    if n > 0 {
      InternalsAccounted(internals, n - 1, externals);
      var c := AfterInternals(internals, n - 1, externals);
      RowForIsSound(internals, n - 1, externals, c.taken, c.rows);
      var row := RowFor(internals, n - 1, externals, c.taken, c.rows);
      if row.Some? {
        AddRowKeepsAccounts(c, row.value, internals, externals);
        TakingKeepsAccounts(AddRow(c, row.value), AfterInternals(internals, n, externals).taken, internals, externals);
      }
    } else {
      NothingAccounted(internals, externals, NothingTaken(|externals|));
    }
  }

  lemma TakingKeepsAccounts(c: Comparison, taken: seq<bool>, internals: seq<Internal>, externals: seq<External>)
    requires Accounted(c) && SoundRows(c.rows, internals, externals)
    ensures Accounted(c.(taken := taken)) && SoundRows(c.(taken := taken).rows, internals, externals)
  {
    hide SoundRow, PairedRows;
  }

  lemma NothingAccounted(internals: seq<Internal>, externals: seq<External>, taken: seq<bool>)
    ensures Accounted(Comparison([], taken, 0, 0, 0, 0, 0)) && SoundRows([], internals, externals)
  {
  }

  /** The counters partition the rows, and every paired row is sound. */
  lemma {:induction false} ComparisonAccounted(internals: seq<Internal>, externals: seq<External>, n: nat)
    requires n <= |externals|
    ensures var c := AfterExternals(internals, externals, n);
      Accounted(c) && SoundRows(c.rows, internals, externals)
  {
    hide AfterInternals, SoundRows, Accounted, AddRow;
    if n == 0 {
      InternalsAccounted(internals, |internals|, externals);
    } else {
      ComparisonAccounted(internals, externals, n - 1);
      AddRowKeepsAccounts(AfterExternals(internals, externals, n - 1), ExternalRow(n - 1), internals, externals);
    }
  }

  // ---- What a paired row says ----

  /** The venue's amount as a signed quantity: negative for a short, positive for a long, otherwise as reported. */
  ghost predicate IsSigned(side: Direction, amount: real, signed: real) {
    match side
    case Short => signed <= 0.0 && (signed == amount || signed == -amount)
    case Long => signed >= 0.0 && (signed == amount || signed == -amount)
    case Undirected => signed == amount
  }

  /** Rounded to eight decimals, the difference is at most 0.000001. */
  predicate Negligible(difference: real) {
    -0.000001005 < difference < 0.000001005
  }

  lemma ToleranceIs(difference: real)
    ensures WithinTolerance(Some(ToFixed(difference, 100000000.0))) <==> Negligible(difference)
    ensures -0.000000005 <= ToFixed(difference, 100000000.0) - difference <= 0.000000005
  {
    var size := if difference < 0.0 then -difference else difference;
    var scaled := size * 100000000.0;
    NearestIs(size, 100000000.0);
    assert (scaled + 0.5).Floor as real / 100000000.0 <= 0.000001 <==> (scaled + 0.5).Floor <= 100;
    assert (scaled + 0.5).Floor <= 100 <==> scaled + 0.5 < 101.0;
    hide Nearest;
  }

  /**
   A paired row: its verdict is 'matched' exactly when the venue reports no amount or the difference to the venue's
   signed amount is negligible, and else 'mismatched'; its delta is that difference to eight decimals.
   */
  ghost predicate PairTells(row: Row, p: Internal, x: External) {
    && (row.status == Matched || row.status == Mismatched)
    && (row.quantityDelta.Some? <==> x.baseAssetAmount.Some?)
    && (x.baseAssetAmount == None ==> row.status == Matched)
    && forall signed :: x.baseAssetAmount.Some? && IsSigned(x.side, x.baseAssetAmount.value, signed) ==>
         && (row.status == Matched <==> Negligible(p.netQuantity - signed))
         && -0.000000005 <= row.quantityDelta.value - (p.netQuantity - signed) <= 0.000000005
  }

  lemma SoundRowTells(row: Row, internals: seq<Internal>, externals: seq<External>)
    requires IsPaired(row) && SoundRow(row, internals, externals)
    ensures PairTells(row, internals[row.internal.value], externals[row.external.value])
    ensures var x := externals[row.external.value];
      x.baseAssetAmount.Some? ==> exists signed :: IsSigned(x.side, x.baseAssetAmount.value, signed)
  {
    var p, x := internals[row.internal.value], externals[row.external.value];
    if x.baseAssetAmount.Some? {
      var quantity := ExternalQuantity(x).value;
      assert IsSigned(x.side, x.baseAssetAmount.value, quantity);
      assert forall signed :: IsSigned(x.side, x.baseAssetAmount.value, signed) ==> signed == quantity;
      ToleranceIs(p.netQuantity - quantity);
      hide ToFixed, WithinTolerance, Negligible;
    }
  }

  /** The two identities name the same market index, key, symbol, or asset and type. */
  ghost predicate SameMarket(a: Identity, b: Identity, kind: KeyKind) {
    match kind
    case MarketIndex => a.marketType == b.marketType != Unknown && a.marketIndex.Some? && a.marketIndex == b.marketIndex
    case MarketKey => a.marketKey.Some? && a.marketKey == b.marketKey
    case MarketSymbol => a.marketType == b.marketType != Unknown && a.marketSymbol.GetOr("") != "" && a.marketSymbol == b.marketSymbol
    case AssetMarketType => a.marketType == b.marketType != Unknown && a.asset.GetOr("") != "" && a.asset == b.asset
  }

  lemma ShareKeyIff(a: Identity, b: Identity, kind: KeyKind)
    ensures ShareKey(a, b, kind) <==> SameMarket(a, b, kind)
  {
  }

  /**
   Comparing two identities: matched exactly when they share some key, and then exactly, rather than in part, when they
   share an index, a key, or a symbol that is exact on the internal side; otherwise mismatched when both name an index,
   or both a key, of the same market type.
   */
  lemma IdentityComparisonTells(a: Identity, b: Identity)
    ensures var c := CompareMarketIdentity(Some(a), Some(b));
      && (c.status == IdentityMatched <==> exists kind :: SameMarket(a, b, kind))
      && (c.status == IdentityMatched ==>
            c.mode == if SameMarket(a, b, MarketIndex) || SameMarket(a, b, MarketKey) || (SameMarket(a, b, MarketSymbol) && a.exact)
                      then Exact else Partial)
      && (c.status == IdentityMismatched <==>
            && (forall kind :: !SameMarket(a, b, kind))
            && a.marketType == b.marketType
            && ((a.marketIndex.Some? && b.marketIndex.Some?) || (a.marketKey.Some? && b.marketKey.Some?)))
      && (c.status == IdentityMismatched ==> c.mode == Exact)
      && (c.status == NotComparableIdentity ==> c.mode == Unsupported)
  {
    ShareKeyIff(a, b, MarketIndex);
    ShareKeyIff(a, b, MarketKey);
    ShareKeyIff(a, b, MarketSymbol);
    ShareKeyIff(a, b, AssetMarketType);
    CompareInOrder(a, b);
    hide ShareKey, SameMarket, CompareFrom;
    assert forall kind: KeyKind :: SameMarket(a, b, kind) ==>
      kind == MarketIndex || kind == MarketKey || kind == MarketSymbol || kind == AssetMarketType;
  }

  lemma CompareInOrder(a: Identity, b: Identity)
    ensures CompareFrom(a, b, PRIORITY)
      == if ShareKey(a, b, MarketIndex) || ShareKey(a, b, MarketKey) then Some(Exact)
         else if ShareKey(a, b, MarketSymbol) then Some(if a.exact then Exact else Partial)
         else if ShareKey(a, b, AssetMarketType) then Some(Partial)
         else None
  {
    hide ShareKey;
    var keys := [MarketKey, MarketSymbol, AssetMarketType];
    assert PRIORITY[0] == MarketIndex && PRIORITY[1..] == keys;
    assert keys[0] == MarketKey && keys[1..] == [MarketSymbol, AssetMarketType];
    assert [MarketSymbol, AssetMarketType][1..] == [AssetMarketType] && [AssetMarketType][1..] == [];
    assert CompareFrom(a, b, [AssetMarketType]) == if ShareKey(a, b, AssetMarketType) then Some(Partial) else None;
    assert CompareFrom(a, b, [MarketSymbol, AssetMarketType])
      == if ShareKey(a, b, MarketSymbol) then Some(if a.exact then Exact else Partial) else CompareFrom(a, b, [AssetMarketType]);
    assert CompareFrom(a, b, keys)
      == if ShareKey(a, b, MarketKey) then Some(Exact) else CompareFrom(a, b, [MarketSymbol, AssetMarketType]);
  }

  /**
   An unpaired internal position: not comparable exactly when several externals share its best key, or a free external
   has its asset and market type; otherwise reported as internal only.
   */
  lemma UnpairedRowTells(internals: seq<Internal>, i: nat, externals: seq<External>, taken: seq<bool>, rows: seq<Row>)
    requires i < |internals| && |taken| == |externals|
    ensures var r, p := RowFor(internals, i, externals, taken, rows), internals[i];
      r.Some? && r.value.external == None ==>
        && r.value.quantityDelta == None
        && r.value.status == if Choose(p, externals, taken) == Ambiguous
             || exists e :: 0 <= e < |externals| && !taken[e]
                  && externals[e].identity.asset == Some(p.asset) && externals[e].identity.marketType == p.marketType
           then NotComparable else InternalOnly
  {
    hide Choose, KeySeen;
  }

  // ---- One row per position ----

  /** One row for each handled position that is not shadowed. */
  ghost predicate InternalsListed(internals: seq<Internal>, n: nat, externals: seq<External>, rows: seq<Row>) {
    forall i: nat :: i < |internals| ==>
      RowsOfInternal(rows, i) == (if i < n && !Shadowed(internals, i, externals) then 1 else 0)
  }

  /** One row for each external that is taken or below `n`. */
  ghost predicate ExternalsListed(n: nat, taken: seq<bool>, rows: seq<Row>) {
    forall e: nat :: e < |taken| ==> RowsOfExternal(rows, e) == (if taken[e] || e < n then 1 else 0)
  }

  /** Every row so far shows an internal position below `n`. */
  ghost predicate RowsBelow(n: nat, rows: seq<Row>) {
    forall r :: 0 <= r < |rows| ==> rows[r].internal.Some? && rows[r].internal.value < n
  }

  lemma {:induction false} RowExists(rows: seq<Row>, i: nat)
    requires RowsOfInternal(rows, i) > 0
    ensures exists r :: 0 <= r < |rows| && rows[r].internal == Some(i)
  {
    if rows[|rows| - 1].internal != Some(i) {
      RowExists(rows[..|rows| - 1], i);
      var r :| 0 <= r < |rows| - 1 && rows[..|rows| - 1][r].internal == Some(i);
      assert rows[r].internal == Some(i);
    }
  }

  /** The first position with a given key is never shadowed, so the key has been seen exactly when it came earlier. */
  lemma {:induction false} FirstWithKeyHasRow(internals: seq<Internal>, j: nat, externals: seq<External>) returns (first: nat)
    requires j < |internals|
    ensures first <= j && internals[first].positionKey == internals[j].positionKey
    ensures !Shadowed(internals, first, externals)
  {
    if Shadowed(internals, j, externals) {
      var k :| 0 <= k < j && internals[k].positionKey == internals[j].positionKey;
      first := FirstWithKeyHasRow(internals, k, externals);
    } else {
      first := j;
    }
  }

  lemma SeenIffEarlier(internals: seq<Internal>, n: nat, externals: seq<External>, rows: seq<Row>)
    requires n < |internals| && InternalsListed(internals, n, externals, rows) && RowsBelow(n, rows)
    ensures KeySeen(internals, rows, internals[n].positionKey)
      <==> exists j :: 0 <= j < n && internals[j].positionKey == internals[n].positionKey
  {
    if j :| 0 <= j < n && internals[j].positionKey == internals[n].positionKey {
      var first := FirstWithKeyHasRow(internals, j, externals);
      hide Shadowed;
      assert RowsOfInternal(rows, first) == 1;
      RowExists(rows, first);
    }
  }

  /** A position gets no row exactly when it is shadowed. */
  lemma ShadowedGetsNoRow(internals: seq<Internal>, n: nat, externals: seq<External>)
    requires n < |internals|
    requires var c := AfterInternals(internals, n, externals);
      InternalsListed(internals, n, externals, c.rows) && RowsBelow(n, c.rows)
    ensures var c := AfterInternals(internals, n, externals);
      RowFor(internals, n, externals, c.taken, c.rows).None? <==> Shadowed(internals, n, externals)
  {
    hide HasSibling, Choose, KeySeen, RowsOfInternal;
    var c := AfterInternals(internals, n, externals);
    SeenIffEarlier(internals, n, externals, c.rows);
    hide AfterInternals;
  }

  lemma ListInternal(internals: seq<Internal>, n: nat, externals: seq<External>, rows: seq<Row>, row: Option<Row>)
    requires n < |internals| && InternalsListed(internals, n, externals, rows) && RowsBelow(n, rows)
    requires row.None? <==> Shadowed(internals, n, externals)
    requires row.Some? ==> row.value.internal == Some(n)
    ensures var after := if row.Some? then rows + [row.value] else rows;
      InternalsListed(internals, n + 1, externals, after) && RowsBelow(n + 1, after)
  {
    hide Shadowed, RowsOfInternal;
    if row.Some? {
      forall i: nat | i < |internals|
        ensures RowsOfInternal(rows + [row.value], i) == (if i < n + 1 && !Shadowed(internals, i, externals) then 1 else 0)
      {
        RowAppended(rows, row.value, i, 0);
      }
    }
  }

  lemma ListExternal(n: nat, taken: seq<bool>, rows: seq<Row>, row: Row, after: seq<bool>)
    requires ExternalsListed(n, taken, rows) && |after| == |taken|
    requires row.external.Some? ==> row.external.value < |taken| && !taken[row.external.value] && row.external.value >= n
    requires forall e :: 0 <= e < |taken| ==> after[e] == (taken[e] || row.external == Some(e))
    ensures ExternalsListed(n, after, rows + [row])
  {
    hide RowsOfExternal;
    forall e: nat | e < |taken|
      ensures RowsOfExternal(rows + [row], e) == (if after[e] || e < n then 1 else 0)
    {
      RowAppended(rows, row, 0, e);
    }
  }

  lemma {:induction false} InternalRows(internals: seq<Internal>, n: nat, externals: seq<External>)
    requires n <= |internals|
    ensures var c := AfterInternals(internals, n, externals);
      && InternalsListed(internals, n, externals, c.rows)
      && RowsBelow(n, c.rows)
      && ExternalsListed(0, c.taken, c.rows)
  {
    hide Shadowed, RowFor, InternalsListed, ExternalsListed, RowsBelow;
    if n > 0 {
      InternalRows(internals, n - 1, externals);
      var c, after := AfterInternals(internals, n - 1, externals), AfterInternals(internals, n, externals);
      var row := RowFor(internals, n - 1, externals, c.taken, c.rows);
      ShadowedGetsNoRow(internals, n - 1, externals);
      ListInternal(internals, n - 1, externals, c.rows, row);
      if row.Some? {
        ListExternal(0, c.taken, c.rows, row.value, after.taken);
      }
    } else {
      NothingListed(internals, externals, NothingTaken(|externals|));
    }
  }

  lemma NothingListed(internals: seq<Internal>, externals: seq<External>, taken: seq<bool>)
    requires forall e :: 0 <= e < |taken| ==> !taken[e]
    ensures InternalsListed(internals, 0, externals, []) && RowsBelow(0, []) && ExternalsListed(0, taken, [])
  {
  }

  lemma ListLeftover(internals: seq<Internal>, externals: seq<External>, n: nat, taken: seq<bool>, rows: seq<Row>)
    requires n < |taken| && ExternalsListed(n, taken, rows)
    requires InternalsListed(internals, |internals|, externals, rows)
    ensures taken[n] ==> ExternalsListed(n + 1, taken, rows)
    ensures !taken[n] ==> ExternalsListed(n + 1, taken, rows + [ExternalRow(n)])
    ensures InternalsListed(internals, |internals|, externals, rows + [ExternalRow(n)])
  {
    hide RowsOfExternal, RowsOfInternal, Shadowed;
    forall e: nat | e < |taken| && !taken[n]
      ensures RowsOfExternal(rows + [ExternalRow(n)], e) == (if taken[e] || e < n + 1 then 1 else 0)
    {
      RowAppended(rows, ExternalRow(n), 0, e);
    }
    forall i: nat | i < |internals|
      ensures RowsOfInternal(rows + [ExternalRow(n)], i) == RowsOfInternal(rows, i)
    {
      RowAppended(rows, ExternalRow(n), i, 0);
    }
  }

  lemma {:induction false} ExternalRows(internals: seq<Internal>, externals: seq<External>, n: nat)
    requires n <= |externals|
    ensures var c := AfterExternals(internals, externals, n);
      InternalsListed(internals, |internals|, externals, c.rows) && ExternalsListed(n, c.taken, c.rows)
  {
    hide Shadowed, AfterInternals, InternalsListed, ExternalsListed, RowsBelow;
    if n == 0 {
      InternalRows(internals, |internals|, externals);
    } else {
      ExternalRows(internals, externals, n - 1);
      var c := AfterExternals(internals, externals, n - 1);
      ListLeftover(internals, externals, n - 1, c.taken, c.rows);
    }
  }

  /**
   Every external position has exactly one row, so none is paired twice; an internal position has exactly one row
   unless it is shadowed, and then it has none.
   */
  lemma EveryPositionAccounted(internals: seq<Internal>, externals: seq<External>)
    ensures var rows := Compare(internals, externals).rows;
      && (forall e: nat :: e < |externals| ==> RowsOfExternal(rows, e) == 1)
      && (forall i: nat :: i < |internals| ==>
            RowsOfInternal(rows, i) == (if Shadowed(internals, i, externals) then 0 else 1))
  {
    hide Shadowed, RowsOfInternal, RowsOfExternal;
    ExternalRows(internals, externals, |externals|);
  }

  /** With distinct position keys the comparison is complete and its counters add up. */
  lemma DistinctKeysComparison(internals: seq<Internal>, externals: seq<External>)
    requires DistinctKeys(internals)
    ensures var c := Compare(internals, externals);
      && (forall i: nat :: i < |internals| ==> RowsOfInternal(c.rows, i) == 1)
      && (forall e: nat :: e < |externals| ==> RowsOfExternal(c.rows, e) == 1)
      && Accounted(c)
      && SoundRows(c.rows, internals, externals)
  {
    hide SoundRow, RowsOfInternal, RowsOfExternal, Accounted;
    EveryPositionAccounted(internals, externals);
    ComparisonAccounted(internals, externals, |externals|);
  }

  /** No external inventory makes an internal position vanish, or appear twice. */
  ghost predicate AlwaysListed(internals: seq<Internal>) {
    forall externals: seq<External>, i: nat :: i < |internals| ==> RowsOfInternal(Compare(internals, externals).rows, i) == 1
  }

  /** Every internal position has exactly one row, whatever the venue reports, if and only if the keys are distinct. */
  lemma AlwaysListedIff(internals: seq<Internal>)
    ensures AlwaysListed(internals) <==> DistinctKeys(internals)
  {
    if DistinctKeys(internals) {
      forall externals: seq<External>, i: nat | i < |internals|
        ensures RowsOfInternal(Compare(internals, externals).rows, i) == 1
      {
        DistinctKeysComparison(internals, externals);
      }
    } else {
      var i, j :| 0 <= i < j < |internals| && internals[i].positionKey == internals[j].positionKey;
      if internals[j].identity.Some? { NothingThere(internals[j].identity.value, PRIORITY); }
      assert AfterInternals(internals, j, []).taken == [];
      assert Shadowed(internals, j, []);
      hide RowsOfInternal, Compare, Shadowed;
      EveryPositionAccounted(internals, []);
      assert RowsOfInternal(Compare(internals, []).rows, j) == 0;
    }
  }

  lemma {:induction false} NothingThere(a: Identity, kinds: seq<KeyKind>)
    ensures ChooseFrom(a, kinds, [], []) == NoPartner
  {
    if kinds != [] {
      NothingThere(a, kinds[1..]);
    }
  }

  /**
   Without distinct keys a position can vanish: of two positions with one key, the first takes the only external
   position they both could be paired with, and the second leaves no row.
   */
  lemma SharedKeyLosesAPosition(p: Internal, q: Internal, x: External)
    requires p.positionKey == q.positionKey
    requires Choose(p, [x], [false]) == Pair(0)
    ensures RowsOfInternal(Compare([p, q], [x]).rows, 0) == 1
    ensures RowsOfInternal(Compare([p, q], [x]).rows, 1) == 0
  {
    hide RowsOfInternal, Compare;
    EveryPositionAccounted([p, q], [x]);
    assert [p, q][0].positionKey == [p, q][1].positionKey;
    FirstTakesTheOnly(p, q, x);
    assert !Shadowed([p, q], 0, [x]);
    if q.identity.Some? { NothingFree(q.identity.value, PRIORITY, [x]); }
    assert Shadowed([p, q], 1, [x]);
  }

  lemma FirstTakesTheOnly(p: Internal, q: Internal, x: External)
    requires Choose(p, [x], [false]) == Pair(0)
    ensures var c := AfterInternals([p, q], 1, [x]); c.taken == [true]
  {
    hide Choose, HasSibling, CompareMarketIdentity, QuantityDelta;
    var start := AfterInternals([p, q], 0, [x]);
    assert start.taken == [false];
    assert AfterInternals([p, q], 1, [x]) == StepInternal(start, [p, q], 0, [x]);
    assert [p, q][0] == p;
    assert RowFor([p, q], 0, [x], start.taken, start.rows) == Some(PairRow(0, 0, p, x));
    assert [false][0 := true] == [true];
  }

  lemma {:induction false} NothingFree(a: Identity, kinds: seq<KeyKind>, externals: seq<External>)
    requires |externals| == 1
    ensures ChooseFrom(a, kinds, externals, [true]) == NoPartner
  {
    if kinds != [] {
      assert externals[..0] == [] && [true][..0] == [];
      assert Matches(a, kinds[0], externals, [true]) == [];
      NothingFree(a, kinds[1..], externals);
    }
  }

  /**
   Such positions arise from one market: fills with a venue-native symbol and fills with a derived one are grouped
   under different keys, while both groups report the normalized key of the symbol.
   */
  lemma OneMarketTwoGroups()
    ensures var native := Identity(Some("SOL"), Perp, None, None, Some("SOL-PERP"), true);
      var derived := native.(exact := false);
      var p := Internal("perp:SOL-PERP", "SOL", Perp, 2.0, Some(native));
      var q := Internal("perp:SOL-PERP", "SOL", Perp, 1.0, Some(derived));
      var rows := Compare([p, q], [External(Long, Some(3.0), native)]).rows;
      RowsOfInternal(rows, 0) == 1 && RowsOfInternal(rows, 1) == 0
  {
    var native := Identity(Some("SOL"), Perp, None, None, Some("SOL-PERP"), true);
    var p := Internal("perp:SOL-PERP", "SOL", Perp, 2.0, Some(native));
    var q := Internal("perp:SOL-PERP", "SOL", Perp, 1.0, Some(native.(exact := false)));
    var x := External(Long, Some(3.0), native);
    assert FreeMatch(native, MarketSymbol, [x], [false], 0);
    assert forall kind, e :: FreeMatch(native, kind, [x], [false], e) ==> e == 0;
    assert !FreeMatch(native, MarketIndex, [x], [false], 0) && !FreeMatch(native, MarketKey, [x], [false], 0);
    ChoiceIff(native, PRIORITY, [x], [false]);
    hide RowsOfInternal, Compare, FreeMatch;
    assert PRIORITY[1..] == [MarketKey, MarketSymbol, AssetMarketType] && PRIORITY[1..][1..] == [MarketSymbol, AssetMarketType];
    assert AnyMatch(native, MarketSymbol, [x], [false]);
    assert FirstShared(native, [MarketSymbol, AssetMarketType], [x], [false]) == Some(MarketSymbol);
    assert FirstShared(native, [MarketKey, MarketSymbol, AssetMarketType], [x], [false]) == Some(MarketSymbol);
    assert FirstShared(native, PRIORITY, [x], [false]) == Some(MarketSymbol);
    assert OnlyMatch(native, MarketSymbol, [x], [false], 0);
    SharedKeyLosesAPosition(p, q, x);
  }

  // ---- The comparison itself ----

  method FindMatches(a: Identity, kind: KeyKind, externals: seq<External>, taken: seq<bool>) returns (found: seq<nat>)
    requires |taken| == |externals|
    ensures found == Matches(a, kind, externals, taken)
  {
    hide ShareKey;
    found := [];
    for e := 0 to |externals|
      invariant found == Matches(a, kind, externals[..e], taken[..e])
    {
      assert externals[..e + 1][..e] == externals[..e] && taken[..e + 1][..e] == taken[..e];
      if !taken[e] && ShareKey(a, externals[e].identity, kind) {
        found := found + [e];
      }
    }
    assert externals[..|externals|] == externals && taken[..|externals|] == taken;
  }

  /** The loop over the kinds of keys, most specific first. */
  method SearchKinds(a: Identity, externals: seq<External>, taken: seq<bool>) returns (choice: Choice)
    requires |taken| == |externals|
    ensures choice == ChooseFrom(a, PRIORITY, externals, taken)
  {
    hide Matches;
    for k := 0 to |PRIORITY|
      invariant ChooseFrom(a, PRIORITY, externals, taken) == ChooseFrom(a, PRIORITY[k..], externals, taken)
    {
      var found := FindMatches(a, PRIORITY[k], externals, taken);
      assert PRIORITY[k..][1..] == PRIORITY[k + 1..];
      if |found| == 1 {
        return Pair(found[0]);
      }
      if |found| > 1 {
        return Ambiguous;
      }
    }
    return NoPartner;
  }

  method ChoosePartner(p: Internal, externals: seq<External>, taken: seq<bool>) returns (choice: Choice)
    requires |taken| == |externals|
    ensures choice == Choose(p, externals, taken)
    ensures p.identity.Some? ==>
      var a := p.identity.value;
      var first := FirstShared(a, PRIORITY, externals, taken);
      && (choice == NoPartner <==> first == None)
      && (forall e: nat :: choice == Pair(e) <==> first.Some? && OnlyMatch(a, first.value, externals, taken, e))
  {
    if p.identity.None? {
      return NoPartner;
    }
    choice := SearchKinds(p.identity.value, externals, taken);
    hide ChooseFrom, FirstShared, OnlyMatch;
    ChoiceIff(p.identity.value, PRIORITY, externals, taken);
  }

  /** The loop over internal positions. */
  method PairInternals(internals: seq<Internal>, externals: seq<External>) returns (c: Comparison)
    ensures c == AfterInternals(internals, |internals|, externals)
  {
    hide HasSibling, Choose, KeySeen, CompareMarketIdentity, QuantityDelta;
    var rows: seq<Row> := [];
    var taken := NothingTaken(|externals|);
    var matchedCount, mismatchedCount, exactIdentityCount, partialIdentityCount, identityGapCount := 0, 0, 0, 0, 0;
    for i := 0 to |internals|
      invariant |taken| == |externals|
      invariant AfterInternals(internals, i, externals) == Comparison(rows, taken, matchedCount, mismatchedCount,
                                                                      exactIdentityCount, partialIdentityCount, identityGapCount)
    {
      var p := internals[i];
      var choice := ChoosePartner(p, externals, taken);
      match choice {
        case Ambiguous =>
          identityGapCount := identityGapCount + 1;
          rows := rows + [UnpairedRow(i, NotComparable)];
        case NoPartner =>
          if !KeySeen(internals, rows, p.positionKey) {
            if HasSibling(p, externals, taken) {
              identityGapCount := identityGapCount + 1;
              rows := rows + [UnpairedRow(i, NotComparable)];
            } else {
              mismatchedCount := mismatchedCount + 1;
              rows := rows + [UnpairedRow(i, InternalOnly)];
            }
          }
        case Pair(e) =>
          taken := taken[e := true];
          var identity := CompareMarketIdentity(p.identity, Some(externals[e].identity));
          var delta := QuantityDelta(p, externals[e]);
          var status := if identity.status == IdentityMismatched then Mismatched
                        else if WithinTolerance(delta) then Matched else Mismatched;
          if status == Matched {
            matchedCount := matchedCount + 1;
          } else {
            mismatchedCount := mismatchedCount + 1;
          }
          if identity.mode == Exact {
            exactIdentityCount := exactIdentityCount + 1;
          } else if identity.mode == Partial {
            partialIdentityCount := partialIdentityCount + 1;
          }
          rows := rows + [Row(Some(i), Some(e), status, delta, identity)];
      }
    }
    c := Comparison(rows, taken, matchedCount, mismatchedCount, exactIdentityCount, partialIdentityCount, identityGapCount);
  }

  /** External positions of a known type, in order. */
  function Known(externals: seq<External>): (r: seq<External>)
    ensures |r| <= |externals|
    ensures forall i :: 0 <= i < |r| ==> r[i].identity.marketType != Unknown
  {
    if externals == [] then []
    else
      Known(externals[..|externals| - 1])
      + if externals[|externals| - 1].identity.marketType != Unknown then [externals[|externals| - 1]] else []
  }

  function UnknownInternals(internals: seq<Internal>): nat {
    if internals == [] then 0
    else UnknownInternals(internals[..|internals| - 1]) + if internals[|internals| - 1].marketType == Unknown then 1 else 0
  }

  /** External positions of unknown type are skipped before pairing; internal ones are only counted. */
  method ComparePositions(internals: seq<Internal>, externals: seq<External>)
    returns (c: Comparison, skippedInternalCount: nat, skippedExternalCount: nat)
    ensures c == Compare(internals, Known(externals))
    ensures Accounted(c)
    ensures forall r :: 0 <= r < |c.rows| && IsPaired(c.rows[r]) ==>
      && c.rows[r].internal.value < |internals| && c.rows[r].external.value < |Known(externals)|
      && PairTells(c.rows[r], internals[c.rows[r].internal.value], Known(externals)[c.rows[r].external.value])
    ensures skippedExternalCount == |externals| - |Known(externals)|
    ensures skippedInternalCount == UnknownInternals(internals)
  {
    hide AfterInternals;
    var known: seq<External> := [];
    for e := 0 to |externals|
      invariant known == Known(externals[..e])
    {
      assert externals[..e + 1][..e] == externals[..e];
      if externals[e].identity.marketType != Unknown {
        known := known + [externals[e]];
      }
    }
    assert externals[..|externals|] == externals;
    skippedExternalCount := |externals| - |known|;
    skippedInternalCount := 0;
    for i := 0 to |internals|
      invariant skippedInternalCount == UnknownInternals(internals[..i])
    {
      assert internals[..i + 1][..i] == internals[..i];
      if internals[i].marketType == Unknown {
        skippedInternalCount := skippedInternalCount + 1;
      }
    }
    assert internals[..|internals|] == internals;
    c := PairInternals(internals, known);
    for e := 0 to |known|
      invariant |c.taken| == |known| && c == AfterExternals(internals, known, e)
    {
      if !c.taken[e] {
        c := c.(mismatchedCount := c.mismatchedCount + 1, rows := c.rows + [ExternalRow(e)]);
      }
    }
    ComparisonTells(internals, known);
    hide Accounted, PairTells;
  }

  lemma ComparisonTells(internals: seq<Internal>, externals: seq<External>)
    ensures var c := Compare(internals, externals);
      && Accounted(c)
      && forall r :: 0 <= r < |c.rows| && IsPaired(c.rows[r]) ==>
           && c.rows[r].internal.value < |internals| && c.rows[r].external.value < |externals|
           && PairTells(c.rows[r], internals[c.rows[r].internal.value], externals[c.rows[r].external.value])
  {
    ComparisonAccounted(internals, externals, |externals|);
    var c := Compare(internals, externals);
    hide AfterExternals, Accounted, PairTells;
    forall r | 0 <= r < |c.rows| && IsPaired(c.rows[r])
      ensures c.rows[r].internal.value < |internals| && c.rows[r].external.value < |externals|
      ensures PairTells(c.rows[r], internals[c.rows[r].internal.value], externals[c.rows[r].external.value])
    {
      assert SoundRow(c.rows[r], internals, externals);
      SoundRowTells(c.rows[r], internals, externals);
    }
  }
}
