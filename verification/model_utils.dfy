/**
 * The inference side of the classifier (`backend/app/core/model_utils.py`):
 * the fixed class list, the tolerant model loader, and what
 * `classify_image_pil` does with the probability vector the network
 * produces. The forward pass and softmax are not modelled: the
 * probability vector is an input.
 */
module ModelUtils {
  import opened Base
  import opened Text
  import opened Network

  // ---------------------------------------------------------------------
  // Class taxonomy
  // ---------------------------------------------------------------------

  /** `get_class_names()`: the categories, index `i` naming output `i` of the network. */
  function GetClassNames(): (names: seq<string>)
    ensures |names| == 9
  {
    ["Battery", "Keyboard", "Mobile", "Mouse", "PCB", "Player", "Printer", "Television", "Washing Machine"]
  }

  /** The label reported when the top index lies outside the class list. */
  const UnknownLabel: string := "Unknown"

  lemma NeighbourNamesOrdered()
    ensures forall i :: 0 <= i < |GetClassNames()| - 1 ==> StrLess(GetClassNames()[i], GetClassNames()[i + 1])
  {
    assert StrLess("Battery", "Keyboard");
    assert StrLess("Keyboard", "Mobile");
    assert StrLess("Mobile", "Mouse") by {
      assert StrLess("bile", "use");
    }
    assert StrLess("Mouse", "PCB");
    assert StrLess("PCB", "Player") by {
      assert StrLess("CB", "layer");
    }
    assert StrLess("Player", "Printer") by {
      assert StrLess("layer", "rinter");
    }
    assert StrLess("Printer", "Television");
    assert StrLess("Television", "Washing Machine");
  }

  /**
   * The class list has nine entries in strictly ascending code-point order,
   * so they are pairwise distinct, and none of them is the fallback label.
   */
  lemma ClassNamesSorted()
    ensures |GetClassNames()| == 9
    ensures StrictlyAscending(GetClassNames())
    ensures Ascending(GetClassNames())
    ensures Distinct(GetClassNames())
    ensures UnknownLabel !in GetClassNames()
  {
    NeighbourNamesOrdered();
    NeighboursStrictlyAscending(GetClassNames());
    StrictlyAscendingIsAscending(GetClassNames());
  }

  // ---------------------------------------------------------------------
  // Loading the model
  // ---------------------------------------------------------------------

  /** The file at the model path: absent, unreadable by `torch.load`, or holding an object. */
  datatype Artifact = Missing | Unreadable | Stored(obj: PyObject)

  /** Which of `load_model`'s paths was taken. */
  datatype LoadStatus =
    | LoadedComposite   // a dict with `model_state`, whose entry was loaded
    | LoadedBare        // the whole object was loaded as a parameter map
    | NotFound          // no file: warned, pretrained backbone with a fresh head
    | LoadFailed        // `torch.load` or `load_state_dict` raised: caught and printed

  datatype LoadedModel = LoadedModel(net: Net, classes: seq<string>, status: LoadStatus)

  /**
   * The object `load_model` hands to `load_state_dict`: the `model_state`
   * entry of a dict that has one, and the whole checkpoint otherwise.
   */
  function SelectState(obj: PyObject): (r: PyObject)
    ensures obj.Dict? && "model_state" in obj.entries ==> r == obj.entries["model_state"]
    ensures !(obj.Dict? && "model_state" in obj.entries) ==> r == obj
  {
    if IsDict(obj) && HasKey(obj, "model_state") then obj.entries["model_state"] else obj
  }

  /**
   * `load_model()`: builds a classifier whose head is as wide as the class
   * list and loads the artifact into it when it can. It never raises, and
   * the returned classes are always `get_class_names()`. A missing or
   * unreadable file leaves the freshly built model; a failed
   * `load_state_dict` leaves whatever it copied before raising, which for
   * a parameter map of another head width is that map's backbone under
   * the fresh head.
   */
  function LoadModel(artifact: Artifact): (r: LoadedModel)
    ensures r.classes == GetClassNames()
    ensures r.net.headWidth == |r.classes|
    ensures r.status == NotFound <==> artifact.Missing?
    ensures artifact.Missing? || artifact.Unreadable? ==> r.net == BuildModel(|GetClassNames()|)
    ensures artifact.Unreadable? ==> r.status == LoadFailed
    ensures r.status == LoadFailed ==> r.net.head == RandomInit
    ensures r.status == LoadFailed && artifact.Stored? && !SelectState(artifact.obj).ParamMap? ==>
              r.net == BuildModel(|GetClassNames()|)
    ensures r.status == LoadFailed && artifact.Stored? && SelectState(artifact.obj).ParamMap? ==>
              r.net.backbone == SelectState(artifact.obj).state.backbone
    ensures r.status == LoadedComposite ==>
              artifact.Stored? && artifact.obj.Dict? && "model_state" in artifact.obj.entries
              && artifact.obj.entries["model_state"] == ParamMap(StateDictOf(r.net))
    ensures r.status == LoadedBare ==>
              artifact.Stored? && artifact.obj == ParamMap(StateDictOf(r.net))
  {
    var classes := GetClassNames();
    var model := BuildModel(|classes|);
    match artifact
    case Missing => LoadedModel(model, classes, NotFound)
    case Unreadable => LoadedModel(model, classes, LoadFailed)
    case Stored(obj) =>
      var composite := IsDict(obj) && HasKey(obj, "model_state");
      var loading := LoadStateDict(model, SelectState(obj));
      if loading.error.None? then
        LoadedModel(loading.net, classes, if composite then LoadedComposite else LoadedBare)
      else
        LoadedModel(loading.net, classes, LoadFailed)
  }

  /** A composite artifact loads its `model_state` entry whenever that entry fits the head. */
  lemma CompositeLoadsModelState(entries: map<string, PyObject>, sd: StateDict)
    requires "model_state" in entries && entries["model_state"] == ParamMap(sd)
    requires sd.headWidth == |GetClassNames()|
    ensures LoadModel(Stored(Dict(entries))).status == LoadedComposite
    ensures StateDictOf(LoadModel(Stored(Dict(entries))).net) == sd
  {
  }

  /** A parameter map saved on its own loads whole when its head fits. */
  lemma BareLoadsWhole(sd: StateDict)
    requires sd.headWidth == |GetClassNames()|
    ensures LoadModel(Stored(ParamMap(sd))).status == LoadedBare
    ensures StateDictOf(LoadModel(Stored(ParamMap(sd))).net) == sd
  {
  }

  /**
   * A parameter map whose head width differs from the class count fails to
   * load, but not without effect: the model that is returned carries the
   * map's backbone under the fresh nine-way head.
   */
  lemma WidthMismatchKeepsBackbone(sd: StateDict, wrapped: bool)
    requires sd.headWidth != |GetClassNames()|
    ensures var art := if wrapped then Stored(Dict(map["model_state" := ParamMap(sd)])) else Stored(ParamMap(sd));
            LoadModel(art).status == LoadFailed && LoadModel(art).net == Net(9, sd.backbone, RandomInit)
  {
    ClassNamesSorted();
  }

  /**
   * Only `model_state` matters in a composite artifact: the saved class
   * list and any other entries are ignored, so two artifacts that agree
   * on that entry load alike.
   */
  lemma CompositeIgnoresOtherEntries(e1: map<string, PyObject>, e2: map<string, PyObject>)
    requires "model_state" in e1 && "model_state" in e2
    requires e1["model_state"] == e2["model_state"]
    ensures LoadModel(Stored(Dict(e1))) == LoadModel(Stored(Dict(e2)))
  {
  }

  // ---------------------------------------------------------------------
  // Post-processing of the probability vector
  // ---------------------------------------------------------------------

  /** `probs.argmax()`: the first index holding the largest value. */
  function ArgMax(probs: seq<real>): (k: nat)
    requires |probs| > 0
    ensures k < |probs|
    ensures forall j :: 0 <= j < |probs| ==> probs[j] <= probs[k]
    ensures forall j :: 0 <= j < k ==> probs[j] < probs[k]
  {
    if |probs| == 1 then 0
    else
      var k := ArgMax(probs[..|probs| - 1]);
      assert forall j :: 0 <= j < |probs| - 1 ==> probs[..|probs| - 1][j] == probs[j];
      if probs[|probs| - 1] > probs[k] then |probs| - 1 else k
  }

  /** An index that holds a maximum and is preceded only by smaller values is the arg-max. */
  lemma ArgMaxUnique(probs: seq<real>, k: nat)
    requires k < |probs|
    requires forall j :: 0 <= j < |probs| ==> probs[j] <= probs[k]
    requires forall j :: 0 <= j < k ==> probs[j] < probs[k]
    ensures ArgMax(probs) == k
  {
  }

  /** `(label, confidence, probs_dict)` as `classify_image_pil` returns it. */
  datatype Prediction = Prediction(topLabel: string, confidence: real, probabilities: map<string, real>)

  /**
   * The post-softmax part of `classify_image_pil`. `argmax` of an empty
   * vector raises, and so does reading `probs[i]` for a class index beyond
   * the vector; otherwise the label is the class at the arg-max (or
   * "Unknown" past the class list), the confidence is the largest
   * probability, and the dict maps each class to its probability.
   */
  function Classify(names: seq<string>, probs: seq<real>): (r: Result<Prediction>)
    ensures r.Err? <==> |probs| == 0 || |probs| < |names|
    ensures r.Ok? ==> r.value.confidence in probs
    ensures r.Ok? ==> forall j :: 0 <= j < |probs| ==> probs[j] <= r.value.confidence
    ensures r.Ok? ==> (r.value.topLabel in names || r.value.topLabel == UnknownLabel)
    ensures r.Ok? ==> r.value.probabilities.Keys == set i | 0 <= i < |names| :: names[i]
    ensures r.Ok? && Distinct(names) ==>
              forall i :: 0 <= i < |names| ==> r.value.probabilities[names[i]] == probs[i]
  {
    if |probs| == 0 then Err("attempt to get argmax of an empty sequence")
    else
      var top := ArgMax(probs);
      var topLabel := if top < |names| then names[top] else UnknownLabel;
      if |probs| < |names| then Err("index out of bounds")
      else
        var dict := ZipMap(names, probs);
        ZipMapDistinct(names, probs);
        Ok(Prediction(topLabel, probs[top], dict))
  }

  /**
   * The label names the first class of largest probability: when it is
   * not "Unknown" it is the class at some index `k` that holds the
   * maximum and beats every earlier index; otherwise no class index does.
   */
  lemma ClassifyLabelIsArgMax(names: seq<string>, probs: seq<real>)
    requires Classify(names, probs).Ok?
    ensures var p := Classify(names, probs).value;
            (ArgMax(probs) < |names| ==> p.topLabel == names[ArgMax(probs)])
            && (ArgMax(probs) >= |names| ==> p.topLabel == UnknownLabel)
            && p.confidence == probs[ArgMax(probs)]
  {
  }

  /**
   * With one probability per class, which the head width guarantees, the
   * label is always a real class and the dict holds the confidence under it.
   */
  lemma ClassifyWithMatchingWidth(probs: seq<real>)
    requires |probs| == |GetClassNames()|
    ensures Classify(GetClassNames(), probs).Ok?
    ensures Classify(GetClassNames(), probs).value.topLabel in GetClassNames()
    ensures Classify(GetClassNames(), probs).value.topLabel != UnknownLabel
    ensures var p := Classify(GetClassNames(), probs).value;
            p.probabilities[p.topLabel] == p.confidence
  {
    ClassNamesSorted();
    var names := GetClassNames();
    var k := ArgMax(probs);
    ZipMapDistinct(names, probs);
    assert Classify(names, probs).value.topLabel == names[k];
  }

  /** A wider vector than the class list can yield "Unknown", which is then absent from the dict. */
  lemma ClassifyUnknownExample()
    ensures Classify(["A", "B"], [0.25, 0.25, 0.5]) == Ok(Prediction(UnknownLabel, 0.5, map["A" := 0.25, "B" := 0.25]))
  {
    assert ArgMax([0.25, 0.25, 0.5]) == 2 by {
      ArgMaxUnique([0.25, 0.25, 0.5], 2);
    }
    assert Distinct(["A", "B"]);
    ZipMapDistinct(["A", "B"], [0.25, 0.25, 0.5]);
  }
}
