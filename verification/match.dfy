/**
 * Rule-based price estimation and recycler matching (`backend/app/api/match.py`).
 * The recycler table is not read from SQLite here: its rows are a parameter.
 */
module Match {
  import opened Base
  import opened Text

  // ---------------------------------------------------------------------
  // Price estimation
  // ---------------------------------------------------------------------

  /** The fixed price table, keyed by lower-case category. */
  const BasePrices: map<string, nat> := map[
    "mobile" := 300,
    "laptop" := 2500,
    "keyboard" := 100,
    "mouse" := 80,
    "television" := 1500,
    "charger" := 50,
    "earphone" := 40,
    "speaker" := 200
  ]

  /** The price of any category missing from the table. */
  const DefaultPrice: nat := 100

  /** Every key of the table is already in lower case. */
  lemma PriceKeysAreLower()
    ensures forall k :: k in BasePrices ==> LowerStr(k) == k
  {
    forall k | k in BasePrices
      ensures LowerStr(k) == k
    {
      LowerStrIdempotent(k);
    }
  }

  /**
   * `estimate_price_rule_based`: the table price of the category that
   * `itemType` names in any letter case, and the default price otherwise.
   */
  function EstimatePrice(itemType: string): (price: nat)
    ensures forall k :: k in BasePrices && EqualsIgnoreCase(itemType, k) ==> price == BasePrices[k]
    ensures (forall k :: k in BasePrices ==> !EqualsIgnoreCase(itemType, k)) ==> price == DefaultPrice
    ensures price in {40, 50, 80, 100, 200, 300, 1500, 2500}
  {
    PriceKeysAreLower();
    forall k | k in BasePrices
      ensures EqualsIgnoreCase(itemType, k) <==> LowerStr(itemType) == k
    {
      LowerStrEqIff(itemType, k);
    }
    var key := LowerStr(itemType);
    if key in BasePrices then BasePrices[key] else DefaultPrice
  }

  /** Two spellings of one word that differ only in letter case get the same price. */
  lemma PriceIgnoresCase(a: string, b: string)
    requires EqualsIgnoreCase(a, b)
    ensures EstimatePrice(a) == EstimatePrice(b)
  {
    LowerStrEqIff(a, b);
  }

  /** Lower-casing the argument first, as the prediction endpoint does, changes nothing. */
  lemma PriceOfLowered(s: string)
    ensures EstimatePrice(LowerStr(s)) == EstimatePrice(s)
    ensures EstimatePrice(s) > 0
  {
    LowerStrIdempotent(s);
  }

  /** A few concrete lookups: listed keys in any case, and categories the table lacks. */
  lemma PriceExamples()
    ensures EstimatePrice("Mobile") == 300
    ensures EstimatePrice("TELEVISION") == 1500
    ensures EstimatePrice("mouse") == 80
  {
    assert EqualsIgnoreCase("Mobile", "mobile");
    assert EqualsIgnoreCase("TELEVISION", "television");
    assert EqualsIgnoreCase("mouse", "mouse");
  }

  /** A category already in lower case is looked up as it is. */
  lemma PriceOfLowerCase(s: string)
    requires forall i :: 0 <= i < |s| ==> !IsUpper(s[i])
    ensures EstimatePrice(s) == if s in BasePrices then BasePrices[s] else DefaultPrice
  {
    LowerStrIdempotent(s);
  }

  // ---------------------------------------------------------------------
  // Recycler matching
  // ---------------------------------------------------------------------

  /**
   * One row of the `recyclers` table as `dict(row)` yields it. Nullable
   * columns are options; `None` is SQL NULL.
   */
  datatype RecyclerRow = RecyclerRow(
    id: int,
    name: string,
    acceptedItems: Option<string>,
    baseMultiplier: Option<real>,
    lat: Option<real>,
    lon: Option<real>,
    rating: Option<real>,
    capacityScore: Option<real>,
    pickupAvailable: Option<int>,
    ecoCertified: Option<int>,
    contact: Option<string>
  )

  /** One matched recycler as `find_recyclers` returns it. */
  datatype Recycler = Recycler(
    id: int,
    name: string,
    acceptedItems: seq<string>,
    baseMultiplier: Option<real>,
    lat: Option<real>,
    lon: Option<real>,
    rating: Option<real>,
    capacityScore: Option<real>,
    pickupAvailable: bool,
    ecoCertified: bool,
    contact: Option<string>
  )

  /** Python truthiness of an integer column: NULL and 0 are false. */
  predicate Truthy(v: Option<int>) {
    v.Some? && v.value != 0
  }

  /** The normalised category list: split on commas, strip each segment, lower-case it. */
  function Categories(accepted: string): (cats: seq<string>)
    ensures |cats| == |Split(accepted, ',')| >= 1
  {
    var parts := Split(accepted, ',');
    seq(|parts|, i requires 0 <= i < |parts| => LowerStr(Strip(parts[i])))
  }

  /** A row accepts a category when its lower form is one of the row's normalised categories. */
  predicate Accepts(row: RecyclerRow, itemType: string) {
    row.acceptedItems.Some? && LowerStr(itemType) in Categories(row.acceptedItems.value)
  }

  /** Whether a row accepts a category depends on the category only up to letter case. */
  lemma AcceptsIgnoresCase(row: RecyclerRow, a: string, b: string)
    requires EqualsIgnoreCase(a, b)
    ensures Accepts(row, a) <==> Accepts(row, b)
  {
    LowerStrEqIff(a, b);
  }

  /** A row whose only category is `w` accepts every spelling whose lower form is `w`. */
  lemma SoleCategoryAccepts(row: RecyclerRow, w: string, itemType: string)
    requires row.acceptedItems == Some(w) && Categories(w) == [w]
    requires LowerStr(itemType) == w
    ensures Accepts(row, itemType)
  {
  }

  /**
   * The record built for a matched row: the normalised category list, the
   * two flags coerced to booleans, every other column copied.
   */
  function ToRecycler(row: RecyclerRow): (r: Recycler)
    requires row.acceptedItems.Some?
    ensures r.acceptedItems == Categories(row.acceptedItems.value)
    ensures r.pickupAvailable <==> Truthy(row.pickupAvailable)
    ensures r.ecoCertified <==> Truthy(row.ecoCertified)
    ensures (r.id, r.name, r.contact) == (row.id, row.name, row.contact)
    ensures (r.baseMultiplier, r.lat, r.lon) == (row.baseMultiplier, row.lat, row.lon)
    ensures (r.rating, r.capacityScore) == (row.rating, row.capacityScore)
  {
    Recycler(
      row.id, row.name, Categories(row.acceptedItems.value), row.baseMultiplier,
      row.lat, row.lon, row.rating, row.capacityScore,
      Truthy(row.pickupAvailable), Truthy(row.ecoCertified), row.contact)
  }

  /** The message of the `AttributeError` raised by `None.split(",")`. */
  const NullAcceptedItems := "'NoneType' object has no attribute 'split'"

  /**
   * `find_recyclers` over the given rows: the recyclers that accept
   * `itemType`, in row order. A NULL `accepted_items` anywhere makes the
   * scan raise.
   */
  function FindRecyclers(rows: seq<RecyclerRow>, itemType: string): (r: Result<seq<Recycler>>)
    ensures r.Err? <==> exists i :: 0 <= i < |rows| && rows[i].acceptedItems.None?
    ensures r.Ok? ==> |r.value| <= |rows|
  {
    if |rows| == 0 then Ok([])
    else
      match rows[0].acceptedItems
      case None => Err(NullAcceptedItems)
      case Some(accepted) =>
        match FindRecyclers(rows[1..], itemType)
        case Err(e) => Err(e)
        case Ok(rest) =>
          if LowerStr(itemType) in Categories(accepted) then Ok([ToRecycler(rows[0])] + rest)
          else Ok(rest)
  }

  /** Matching depends on the category only up to letter case. */
  lemma {:induction false} FindRecyclersIgnoresCase(rows: seq<RecyclerRow>, a: string, b: string)
    requires EqualsIgnoreCase(a, b)
    ensures FindRecyclers(rows, a) == FindRecyclers(rows, b)
  {
    LowerStrEqIff(a, b);
    if |rows| > 0 {
      FindRecyclersIgnoresCase(rows[1..], a, b);
    }
  }

  predicate StrictlyIncreasing(s: seq<nat>) {
    forall k, l :: 0 <= k < l < |s| ==> s[k] < s[l]
  }

  /**
   * The matched list is an ordered selection of the rows: there are
   * strictly increasing row indices, one per returned record, the record
   * at position `k` is built from the row at `picked[k]`, and a row index
   * is picked exactly when that row accepts the category.
   */
  lemma {:induction false} FindRecyclersSelects(rows: seq<RecyclerRow>, itemType: string)
    returns (picked: seq<nat>)
    requires FindRecyclers(rows, itemType).Ok?
    ensures |picked| == |FindRecyclers(rows, itemType).value|
    ensures StrictlyIncreasing(picked)
    ensures forall k :: 0 <= k < |picked| ==> picked[k] < |rows| && rows[picked[k]].acceptedItems.Some?
    ensures forall k :: 0 <= k < |picked| ==>
              FindRecyclers(rows, itemType).value[k] == ToRecycler(rows[picked[k]])
    ensures forall i :: 0 <= i < |rows| ==> (i in picked <==> Accepts(rows[i], itemType))
  {
    if |rows| == 0 {
      picked := [];
    } else {
      FindRecyclersCons(rows, itemType);
      var tail := FindRecyclersSelects(rows[1..], itemType);
      var accepts := (row: RecyclerRow) => Accepts(row, itemType);
      picked := SelectionCons(rows, accepts, tail, FindRecyclers(rows[1..], itemType).value);
      assert IsSelection(rows, accepts, picked, FindRecyclers(rows, itemType).value);
    }
  }

  /**
   * `picked` lists, in increasing order, exactly the rows that satisfy
   * `accepts`, and `recs[k]` is the record of row `picked[k]`.
   */
  predicate IsSelection(rows: seq<RecyclerRow>, accepts: RecyclerRow -> bool, picked: seq<nat>, recs: seq<Recycler>) {
    && |picked| == |recs|
    && StrictlyIncreasing(picked)
    && (forall k :: 0 <= k < |picked| ==> picked[k] < |rows| && rows[picked[k]].acceptedItems.Some?)
    && (forall k :: 0 <= k < |picked| ==> recs[k] == ToRecycler(rows[picked[k]]))
    && (forall i :: 0 <= i < |rows| ==> (i in picked <==> accepts(rows[i])))
  }

  /** A selection from `rows[1..]` extends to `rows` by renumbering it and putting row 0 in front if it is accepted. */
  lemma SelectionCons(rows: seq<RecyclerRow>, accepts: RecyclerRow -> bool, tail: seq<nat>, rest: seq<Recycler>)
    returns (picked: seq<nat>)
    requires |rows| > 0 && rows[0].acceptedItems.Some?
    requires IsSelection(rows[1..], accepts, tail, rest)
    ensures IsSelection(rows, accepts, picked, (if accepts(rows[0]) then [ToRecycler(rows[0])] else []) + rest)
  {
    var shifted := ShiftSelection(rows, accepts, tail, rest);
    if accepts(rows[0]) {
      picked := PrependSelection(rows, accepts, shifted, rest);
    } else {
      picked := shifted;
      assert [] + rest == rest;
    }
  }

  /** Row 0, accepted, put in front of a selection that does not pick it. */
  lemma PrependSelection(rows: seq<RecyclerRow>, accepts: RecyclerRow -> bool, shifted: seq<nat>, rest: seq<Recycler>)
    returns (picked: seq<nat>)
    requires |rows| > 0 && rows[0].acceptedItems.Some? && accepts(rows[0])
    requires |shifted| == |rest| && StrictlyIncreasing(shifted)
    requires forall k :: 0 <= k < |shifted| ==>
               1 <= shifted[k] < |rows| && rows[shifted[k]].acceptedItems.Some?
               && rest[k] == ToRecycler(rows[shifted[k]])
    requires forall i :: 1 <= i < |rows| ==> (i in shifted <==> accepts(rows[i]))
    ensures IsSelection(rows, accepts, picked, [ToRecycler(rows[0])] + rest)
  {
    var recs := [ToRecycler(rows[0])] + rest;
    PrependZero(shifted);
    picked := [0] + shifted;
    forall k | 0 <= k < |picked|
      ensures picked[k] < |rows| && rows[picked[k]].acceptedItems.Some?
      ensures recs[k] == ToRecycler(rows[picked[k]])
    {
      if k > 0 {
        assert picked[k] == shifted[k - 1] && recs[k] == rest[k - 1];
      }
    }
    forall i | 0 <= i < |rows|
      ensures i in picked <==> accepts(rows[i])
    {
      if i > 0 {
        assert i in picked <==> i in shifted;
      }
    }
  }

  /** The selection from `rows[1..]`, renumbered as indices into `rows`: it never picks row 0. */
  lemma ShiftSelection(rows: seq<RecyclerRow>, accepts: RecyclerRow -> bool, tail: seq<nat>, rest: seq<Recycler>)
    returns (shifted: seq<nat>)
    requires |rows| > 0
    requires IsSelection(rows[1..], accepts, tail, rest)
    ensures |shifted| == |rest| && StrictlyIncreasing(shifted) && 0 !in shifted
    ensures forall k :: 0 <= k < |shifted| ==>
              1 <= shifted[k] < |rows| && rows[shifted[k]].acceptedItems.Some?
              && rest[k] == ToRecycler(rows[shifted[k]])
    ensures forall i :: 1 <= i < |rows| ==> (i in shifted <==> accepts(rows[i]))
  {
    shifted := ShiftIndices(tail);
    forall k | 0 <= k < |shifted|
      ensures shifted[k] < |rows| && rows[shifted[k]].acceptedItems.Some?
      ensures rest[k] == ToRecycler(rows[shifted[k]])
    {
      assert rows[1..][tail[k]] == rows[shifted[k]];
    }
    forall i | 1 <= i < |rows|
      ensures i in shifted <==> accepts(rows[i])
    {
      assert rows[1..][i - 1] == rows[i];
    }
  }

  /** One step of the scan: the first row's record, if it accepts, in front of the rest's matches. */
  lemma FindRecyclersCons(rows: seq<RecyclerRow>, itemType: string)
    requires |rows| > 0 && FindRecyclers(rows, itemType).Ok?
    ensures rows[0].acceptedItems.Some? && FindRecyclers(rows[1..], itemType).Ok?
    ensures FindRecyclers(rows, itemType).value ==
              (if Accepts(rows[0], itemType) then [ToRecycler(rows[0])] else []) + FindRecyclers(rows[1..], itemType).value
  {
  }

  /** Index 0 can be put in front of positive increasing indices. */
  lemma PrependZero(s: seq<nat>)
    requires StrictlyIncreasing(s)
    requires forall k :: 0 <= k < |s| ==> s[k] >= 1
    ensures StrictlyIncreasing([0] + s)
  {
    forall k, l | 0 <= k < l < |s| + 1
      ensures ([0] + s)[k] < ([0] + s)[l]
    {
      if k > 0 {
        assert ([0] + s)[k] == s[k - 1];
      }
    }
  }

  /** Indices into `rows[1..]`, renumbered as indices into `rows`. */
  lemma ShiftIndices(tail: seq<nat>) returns (shifted: seq<nat>)
    ensures |shifted| == |tail|
    ensures forall k :: 0 <= k < |tail| ==> shifted[k] == tail[k] + 1
    ensures forall i: nat :: i in shifted <==> i >= 1 && i - 1 in tail
    ensures StrictlyIncreasing(tail) ==> StrictlyIncreasing(shifted)
  {
    shifted := seq(|tail|, k requires 0 <= k < |tail| => tail[k] + 1);
    forall i: nat | i >= 1 && i - 1 in tail
      ensures i in shifted
    {
      var k :| 0 <= k < |tail| && tail[k] == i - 1;
      assert shifted[k] == i;
    }
  }

  /**
   * A category is accepted exactly when one of the comma-separated
   * segments, with its surrounding whitespace removed, spells it in some
   * letter case.
   */
  lemma AcceptedIffSomeSegment(accepted: string, itemType: string)
    ensures LowerStr(itemType) in Categories(accepted)
        <==> exists seg :: seg in Split(accepted, ',') && EqualsIgnoreCase(Strip(seg), itemType)
  {
    var parts := Split(accepted, ',');
    var cats := Categories(accepted);
    if LowerStr(itemType) in cats {
      var i :| 0 <= i < |cats| && cats[i] == LowerStr(itemType);
      LowerStrEqIff(Strip(parts[i]), itemType);
      assert parts[i] in parts;
    }
    if exists seg :: seg in parts && EqualsIgnoreCase(Strip(seg), itemType) {
      var seg :| seg in parts && EqualsIgnoreCase(Strip(seg), itemType);
      var i :| 0 <= i < |parts| && parts[i] == seg;
      LowerStrEqIff(Strip(seg), itemType);
      assert cats[i] == LowerStr(itemType);
    }
  }

  /**
   * The category itself is not stripped: one that begins or ends with
   * whitespace never matches, because every stripped segment begins and
   * ends with a non-space character.
   */
  lemma PaddedCategoryNeverMatches(accepted: string, itemType: string)
    requires |itemType| > 0
    requires IsSpace(itemType[0]) || IsSpace(itemType[|itemType| - 1])
    ensures LowerStr(itemType) !in Categories(accepted)
  {
    var parts := Split(accepted, ',');
    var cats := Categories(accepted);
    forall i | 0 <= i < |cats|
      ensures cats[i] != LowerStr(itemType)
    {
      var stripped := Strip(parts[i]);
      if |stripped| == |itemType| {
        assert LowerStr(stripped)[0] != LowerStr(itemType)[0]
            || LowerStr(stripped)[|itemType| - 1] != LowerStr(itemType)[|itemType| - 1];
      }
    }
  }

  /**
   * A lower-case category with no comma and no surrounding whitespace,
   * stored alone in `accepted_items`, is the row's one category.
   */
  lemma SingleCategory(w: string)
    requires |w| > 0 && ',' !in w
    requires !IsSpace(w[0]) && !IsSpace(w[|w| - 1])
    requires forall i :: 0 <= i < |w| ==> !IsUpper(w[i])
    ensures Categories(w) == [w]
  {
    SplitJoin([w], ',');
    assert Split(w, ',') == [w];
    assert TrimStart(w) == w;
    assert TrimEnd(w) == w;
    LowerStrIdempotent(w);
  }

  /** A table of one row that accepts the category yields that row's record alone. */
  lemma OneAcceptingRow(row: RecyclerRow, itemType: string)
    requires Accepts(row, itemType)
    ensures FindRecyclers([row], itemType) == Ok([ToRecycler(row)])
  {
    assert [row][1..] == [];
    assert FindRecyclers([], itemType) == Ok([]);
    assert [ToRecycler(row)] + [] == [ToRecycler(row)];
  }

  /**
   * An empty `accepted_items` splits into one empty segment, so it accepts
   * the empty category and nothing else.
   */
  lemma EmptyAcceptedMatchesOnlyEmpty(itemType: string)
    ensures Categories("") == [""]
    ensures LowerStr(itemType) in Categories("") <==> itemType == ""
  {
    assert Split("", ',') == [""];
    assert AllSpace("");
    assert Strip("") == "";
    assert LowerStr("") == "";
  }
}
