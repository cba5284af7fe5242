/**
 * The prediction endpoint (`backend/app/api/predict.py`): decode the
 * upload, classify it, price it, match recyclers, and answer with one of
 * three outcomes. Image decoding and the network's forward pass are
 * parameters: `decoded` is what `Image.open(...).convert("RGB")` gave
 * (`None` when it raised) and `network` maps an image to the probability
 * vector `classify_image_pil` post-processes.
 */
module Predict {
  import opened Base
  import opened Text
  import Match
  import ModelUtils
  import Network

  const InvalidImageMessage: string := "Invalid image file."
  const InternalErrorMessage: string := "Internal server error. Check backend logs."

  /** The fixed confidence attached to every rule-based price. */
  const PriceConfidence: real := 0.8

  /** The body of a successful answer (`PredictionResponse` in `schemas.py`). */
  datatype PredictionResponse = PredictionResponse(
    itemType: string,
    confidence: real,
    probabilities: map<string, real>,
    estimatedPrice: nat,
    priceConfidence: real,
    recyclers: seq<Match.Recycler>
  )

  /** The three ways a request ends: 400 with an error, 200 with a body, 500 with an error. */
  datatype Response =
    | BadRequest(error: string)
    | Success(body: PredictionResponse)
    | ServerError(error: string)

  /** The HTTP status code of a response. */
  function Status(r: Response): (code: nat)
    ensures code == 200 <==> r.Success?
    ensures code == 400 <==> r.BadRequest?
    ensures code == 500 <==> r.ServerError?
  {
    match r
    case BadRequest(_) => 400
    case Success(_) => 200
    case ServerError(_) => 500
  }

  /**
   * `predict_image`. A decoding failure answers 400 before the classifier
   * runs; an exception from classification or matching answers 500;
   * otherwise the raw label, its confidence and probabilities, the price
   * and the matches of the lower-cased label are returned. The form fields
   * `brand`, `age_months` and `condition` are accepted but unused.
   */
  function PredictImage<I>(decoded: Option<I>, network: I -> seq<real>, rows: seq<Match.RecyclerRow>): (resp: Response)
    ensures decoded.None? ==> resp == BadRequest(InvalidImageMessage)
    ensures resp.ServerError? ==> resp.error == InternalErrorMessage
    ensures resp.Success? ==> resp.body.priceConfidence == PriceConfidence
    ensures resp.Success? ==> resp.body.estimatedPrice == Match.EstimatePrice(resp.body.itemType)
    ensures resp.Success? ==>
              resp.body.itemType in ModelUtils.GetClassNames() || resp.body.itemType == ModelUtils.UnknownLabel
  {
    match decoded
    case None => BadRequest(InvalidImageMessage)
    case Some(img) =>
      match ModelUtils.Classify(ModelUtils.GetClassNames(), network(img))
      case Err(_) => ServerError(InternalErrorMessage)
      case Ok(p) =>
        var lowered := LowerStr(p.topLabel);
        Match.PriceOfLowered(p.topLabel);
        var price := Match.EstimatePrice(lowered);
        // `find_recyclers(label) or []`: an empty match list is replaced by another empty list.
        match Match.FindRecyclers(rows, lowered)
        case Err(_) => ServerError(InternalErrorMessage)
        case Ok(recyclers) =>
          Success(PredictionResponse(p.topLabel, p.confidence, p.probabilities, price, PriceConfidence, recyclers))
  }

  /** A recycler row whose `accepted_items` is NULL. */
  predicate HasNullRow(rows: seq<Match.RecyclerRow>) {
    exists i :: 0 <= i < |rows| && rows[i].acceptedItems.None?
  }

  /**
   * Which outcome a request gets: 400 exactly when the image does not
   * decode; 500 exactly when it decodes but the network yields fewer
   * probabilities than there are classes (including none) or the table has
   * a NULL `accepted_items`; 200 otherwise.
   */
  lemma PredictOutcome<I>(decoded: Option<I>, network: I -> seq<real>, rows: seq<Match.RecyclerRow>)
    ensures Status(PredictImage(decoded, network, rows)) == 400 <==> decoded.None?
    ensures Status(PredictImage(decoded, network, rows)) == 500 <==>
              decoded.Some? && (|network(decoded.value)| < 9 || HasNullRow(rows))
    ensures Status(PredictImage(decoded, network, rows)) == 200 <==>
              decoded.Some? && |network(decoded.value)| >= 9 && !HasNullRow(rows)
  {
    ModelUtils.ClassNamesSorted();
    if decoded.Some? {
      var probs := network(decoded.value);
      var c := ModelUtils.Classify(ModelUtils.GetClassNames(), probs);
      if c.Ok? {
        var lowered := LowerStr(c.value.topLabel);
        assert Match.FindRecyclers(rows, lowered).Err? <==> HasNullRow(rows);
      }
    }
  }

  /** When the image does not decode, neither the classifier nor the recycler table matters. */
  lemma DecodeFailureSkipsClassifier<I>(n1: I -> seq<real>, n2: I -> seq<real>, rows1: seq<Match.RecyclerRow>, rows2: seq<Match.RecyclerRow>)
    ensures PredictImage(None, n1, rows1) == PredictImage(None, n2, rows2) == BadRequest(InvalidImageMessage)
  {
  }

  /**
   * A successful answer reports the classifier's raw label with its case
   * kept, passes its confidence and probability dict through unchanged,
   * and prices and matches that label: matching the lower-cased label is
   * the same as matching the raw one.
   */
  lemma PredictSuccessFields<I>(decoded: Option<I>, network: I -> seq<real>, rows: seq<Match.RecyclerRow>)
    ensures PredictImage(decoded, network, rows).Success? ==>
              decoded.Some?
              && ModelUtils.Classify(ModelUtils.GetClassNames(), network(decoded.value)).Ok?
              && var p := ModelUtils.Classify(ModelUtils.GetClassNames(), network(decoded.value)).value;
                 var body := PredictImage(decoded, network, rows).body;
                 body.itemType == p.topLabel
                 && body.confidence == p.confidence
                 && body.probabilities == p.probabilities
                 && body.estimatedPrice == Match.EstimatePrice(p.topLabel)
                 && Match.FindRecyclers(rows, p.topLabel) == Ok(body.recyclers)
  {
    if PredictImage(decoded, network, rows).Success? {
      var p := ModelUtils.Classify(ModelUtils.GetClassNames(), network(decoded.value)).value;
      var lowered := LowerStr(p.topLabel);
      LowerStrEqIff(lowered, p.topLabel);
      LowerStrIdempotent(p.topLabel);
      Match.FindRecyclersIgnoresCase(rows, lowered, p.topLabel);
    }
  }

  /**
   * With one probability per class the answer names a real class, never
   * "Unknown", and the probability reported under that class is the
   * confidence.
   */
  lemma PredictWithMatchingWidth<I>(img: I, network: I -> seq<real>, rows: seq<Match.RecyclerRow>)
    requires |network(img)| == |ModelUtils.GetClassNames()|
    requires !HasNullRow(rows)
    ensures PredictImage(Some(img), network, rows).Success?
    ensures var body := PredictImage(Some(img), network, rows).body;
            body.itemType in ModelUtils.GetClassNames()
            && body.itemType in body.probabilities
            && body.probabilities[body.itemType] == body.confidence
  {
    ModelUtils.ClassifyWithMatchingWidth(network(img));
    PredictOutcome(Some(img), network, rows);
  }

  /**
   * The network the endpoint runs is the one `load_model` returned, and a
   * forward pass yields one value per output of the network's head. The
   * loader always builds that head as wide as the class list, so whatever
   * the artifact held, the intended endpoint answers a decoded image with
   * a success naming a real class when no row is NULL.
   */
  lemma LoadedModelPredicts<I>(artifact: ModelUtils.Artifact, forward: (Network.Net, I) -> seq<real>, img: I, rows: seq<Match.RecyclerRow>)
    requires forall net: Network.Net, x: I :: |forward(net, x)| == net.headWidth
    requires !HasNullRow(rows)
    ensures var net := ModelUtils.LoadModel(artifact).net;
            var resp := PredictImage(Some(img), (x: I) => forward(net, x), rows);
            resp.Success? && resp.body.itemType in ModelUtils.GetClassNames()
  {
    var net := ModelUtils.LoadModel(artifact).net;
    var network := (x: I) => forward(net, x);
    assert |network(img)| == |ModelUtils.GetClassNames()|;
    PredictWithMatchingWidth(img, network, rows);
  }

  /**
   * The returned recyclers are exactly the rows that accept the label, in
   * table order: an ordered selection of the rows, each record built from
   * its row, each listing the lower-cased label among its categories.
   */
  lemma PredictRecyclersAccept<I>(decoded: Option<I>, network: I -> seq<real>, rows: seq<Match.RecyclerRow>)
    returns (picked: seq<nat>)
    ensures PredictImage(decoded, network, rows).Success? ==>
              var body := PredictImage(decoded, network, rows).body;
              |picked| == |body.recyclers|
              && Match.StrictlyIncreasing(picked)
              && (forall k :: 0 <= k < |picked| ==>
                    picked[k] < |rows| && rows[picked[k]].acceptedItems.Some?
                    && body.recyclers[k] == Match.ToRecycler(rows[picked[k]])
                    && LowerStr(body.itemType) in body.recyclers[k].acceptedItems)
              && (forall i :: 0 <= i < |rows| ==> (i in picked <==> Match.Accepts(rows[i], body.itemType)))
  {
    picked := [];
    if PredictImage(decoded, network, rows).Success? {
      PredictSuccessFields(decoded, network, rows);
      var body := PredictImage(decoded, network, rows).body;
      picked := Match.FindRecyclersSelects(rows, body.itemType);
      forall k | 0 <= k < |picked|
        ensures LowerStr(body.itemType) in body.recyclers[k].acceptedItems
      {
        assert picked[k] in picked;
      }
    }
  }

  // ---------------------------------------------------------------------
  // The response as written: schema validation of the matches
  // ---------------------------------------------------------------------

  /** The keys of a record built by `find_recyclers`. */
  const MatchRecordKeys: set<string> := {
    "id", "name", "accepted_items", "base_multiplier", "lat", "lon",
    "rating", "capacity_score", "pickup_available", "eco_certified", "contact"
  }

  /**
   * The fields `RecyclerInfo` declares, none with a default. Whether the
   * `Optional` ones (`contact`, `rating`) may be omitted depends on the
   * pydantic version, but `location` is a plain `Dict` without a default
   * and is required under every version; it is the only field the
   * argument below needs.
   */
  const RecyclerInfoRequired: set<string> := {"name", "location", "contact", "rating", "pickup_available", "eco_certified"}

  /** A match record validates as `RecyclerInfo` when it has every required field. */
  predicate MatchRecordValidates() {
    RecyclerInfoRequired <= MatchRecordKeys
  }

  /** The records carry `lat` and `lon` but no `location`, so they never validate. */
  lemma MatchRecordNeverValidates()
    ensures !MatchRecordValidates()
    ensures "location" in RecyclerInfoRequired && "location" !in MatchRecordKeys
  {
    assert "location" in RecyclerInfoRequired;
  }

  /**
   * `predict_image` with the construction of `PredictionResponse` taken
   * into account: the schema validates each match record as
   * `RecyclerInfo`, and the failed validation is caught by the handler's
   * `except Exception` like any other error.
   */
  function PredictImageAsWritten<I>(decoded: Option<I>, network: I -> seq<real>, rows: seq<Match.RecyclerRow>): (resp: Response)
    ensures resp.Success? ==> PredictImage(decoded, network, rows) == resp && |resp.body.recyclers| == 0
  {
    MatchRecordNeverValidates();
    match PredictImage(decoded, network, rows)
    case Success(body) =>
      if |body.recyclers| > 0 && !MatchRecordValidates() then ServerError(InternalErrorMessage)
      else Success(body)
    case other => other
  }

  /**
   * As written, every request that finds at least one recycler fails with
   * 500, and every other request is answered as the intended endpoint
   * answers it.
   */
  lemma AsWrittenFailsOnEveryMatch<I>(decoded: Option<I>, network: I -> seq<real>, rows: seq<Match.RecyclerRow>)
    ensures var intended := PredictImage(decoded, network, rows);
            PredictImageAsWritten(decoded, network, rows) ==
              if intended.Success? && |intended.body.recyclers| > 0 then ServerError(InternalErrorMessage)
              else intended
  {
    MatchRecordNeverValidates();
  }

  /** The lower form of the label "Mobile" is the table's category "mobile". */
  lemma MobileLowersToTableKey()
    ensures LowerStr("Mobile") == "mobile" && LowerStr("mobile") == "mobile"
  {
    assert EqualsIgnoreCase("Mobile", "mobile");
    LowerToCaseVariant("Mobile", "mobile");
    LowerStrIdempotent("mobile");
  }

  /** A network output with all its mass on index 2 is classified as "Mobile". */
  lemma AllMassOnMobile(probs: seq<real>)
    requires probs == [0.0, 0.0, 1.0, 0.0, 0.0, 0.0, 0.0, 0.0, 0.0]
    ensures ModelUtils.Classify(ModelUtils.GetClassNames(), probs).Ok?
    ensures ModelUtils.Classify(ModelUtils.GetClassNames(), probs).value.topLabel == "Mobile"
  {
    ModelUtils.ArgMaxUnique(probs, 2);
    ModelUtils.ClassifyLabelIsArgMax(ModelUtils.GetClassNames(), probs);
  }

  /**
   * Whenever the one row of the table accepts the classified label, the
   * intended endpoint answers 200 with that row's record, and the endpoint
   * as written answers 500.
   */
  lemma OneMatchAsWritten<I>(img: I, network: I -> seq<real>, row: Match.RecyclerRow)
    ensures var c := ModelUtils.Classify(ModelUtils.GetClassNames(), network(img));
            c.Ok? && Match.Accepts(row, c.value.topLabel) ==>
              PredictImage(Some(img), network, [row]).Success?
              && PredictImage(Some(img), network, [row]).body.recyclers == [Match.ToRecycler(row)]
              && Status(PredictImageAsWritten(Some(img), network, [row])) == 500
  {
    var c := ModelUtils.Classify(ModelUtils.GetClassNames(), network(img));
    if c.Ok? && Match.Accepts(row, c.value.topLabel) {
      LowerStrIdempotent(c.value.topLabel);
      Match.OneAcceptingRow(row, LowerStr(c.value.topLabel));
      AsWrittenFailsOnEveryMatch(Some(img), network, [row]);
    }
  }

  /** A row storing exactly "mobile" accepts the label "Mobile". */
  lemma MobileRowAcceptsMobile(row: Match.RecyclerRow, itemType: string)
    requires row.acceptedItems == Some("mobile") && itemType == "Mobile"
    ensures Match.Accepts(row, itemType)
  {
    MobileLowersToTableKey();
    Match.SingleCategory("mobile");
    Match.SoleCategoryAccepts(row, "mobile", itemType);
  }

  /** The request of the example below reaches matching with the label "Mobile", which the row accepts. */
  lemma MobileRequestMatches<I>(img: I, network: I -> seq<real>, row: Match.RecyclerRow)
    requires row.acceptedItems == Some("mobile")
    requires network(img) == [0.0, 0.0, 1.0, 0.0, 0.0, 0.0, 0.0, 0.0, 0.0]
    ensures ModelUtils.Classify(ModelUtils.GetClassNames(), network(img)).Ok?
    ensures Match.Accepts(row, ModelUtils.Classify(ModelUtils.GetClassNames(), network(img)).value.topLabel)
  {
    AllMassOnMobile(network(img));
    MobileRowAcceptsMobile(row, ModelUtils.Classify(ModelUtils.GetClassNames(), network(img)).value.topLabel);
  }

  /**
   * A concrete request: one recycler accepting "mobile" and a network that
   * puts all its probability on "Mobile". The intended endpoint answers 200
   * with that recycler; the endpoint as written answers 500.
   */
  lemma MobileUploadWithOneRecycler<I>(img: I, network: I -> seq<real>, row: Match.RecyclerRow)
    requires row.acceptedItems == Some("mobile")
    requires network(img) == [0.0, 0.0, 1.0, 0.0, 0.0, 0.0, 0.0, 0.0, 0.0]
    ensures PredictImage(Some(img), network, [row]).Success?
    ensures PredictImage(Some(img), network, [row]).body.recyclers == [Match.ToRecycler(row)]
    ensures Status(PredictImageAsWritten(Some(img), network, [row])) == 500
  {
    MobileRequestMatches(img, network, row);
    OneMatchAsWritten(img, network, row);
  }
}
