/**
 * The image classifier as the backend sees it from outside: a ResNet-18
 * whose fully connected head has been replaced, its parameter map, and
 * the Python objects `torch.load` can return. No numerics are modelled;
 * only the head's output width decides whether a parameter map fits.
 */
module Network {
  import opened Base

  /**
   * The values of one part of the network: the ImageNet weights the
   * backbone is built with, the random initialisation of a new layer, or
   * values learned by a training run.
   */
  datatype Weights = ImageNet | RandomInit | Learned(run: nat)

  /**
   * A classifier: the convolutional backbone, whose shapes never vary, and
   * the fully connected head, whose output width is `headWidth`.
   */
  datatype Net = Net(headWidth: nat, backbone: Weights, head: Weights)

  /** A `state_dict`: the head width it was taken from and the values of both parts. */
  datatype StateDict = StateDict(headWidth: nat, backbone: Weights, head: Weights)

  /**
   * What `torch.load` can return. A parameter map is itself a dict, keyed
   * by parameter names such as `fc.weight`; none of those names is
   * `model_state`.
   */
  datatype PyObject =
    | ParamMap(state: StateDict)
    | Dict(entries: map<string, PyObject>)
    | StrList(items: seq<string>)
    | OtherObject

  /** `isinstance(obj, dict)` */
  predicate IsDict(obj: PyObject) {
    obj.ParamMap? || obj.Dict?
  }

  /** `key in obj` for a dict */
  predicate HasKey(obj: PyObject, key: string)
    requires IsDict(obj)
  {
    obj.Dict? && key in obj.entries
  }

  /** `resnet18(weights=DEFAULT)` with `fc` replaced by a fresh `Linear(512, numClasses)`. */
  function BuildModel(numClasses: nat): (net: Net)
    ensures net.headWidth == numClasses
    ensures net.backbone == ImageNet && net.head == RandomInit
  {
    Net(numClasses, ImageNet, RandomInit)
  }

  /** `model.state_dict()` */
  function StateDictOf(net: Net): (sd: StateDict)
    ensures sd.headWidth == net.headWidth && sd.backbone == net.backbone && sd.head == net.head
  {
    StateDict(net.headWidth, net.backbone, net.head)
  }

  /**
   * What `model.load_state_dict(obj)` leaves behind: the model, updated in
   * place, and the error it raised, if any.
   */
  datatype Loading = Loading(net: Net, error: Option<string>)

  /**
   * `model.load_state_dict(obj)` in strict mode. An object that is not a
   * dict raises before anything is copied. A dict is walked tensor by
   * tensor: every tensor whose name and shape fit is copied into the model,
   * and only afterwards are the size mismatches and missing keys raised.
   * So a parameter map with another head width still hands over its
   * backbone, and the model keeps its own head.
   */
  function LoadStateDict(net: Net, obj: PyObject): (r: Loading)
    ensures r.error.None? <==> obj.ParamMap? && obj.state.headWidth == net.headWidth
    ensures r.error.None? ==> StateDictOf(r.net) == obj.state
    ensures r.net.headWidth == net.headWidth
    ensures obj.ParamMap? ==> r.net.backbone == obj.state.backbone
    ensures obj.ParamMap? && obj.state.headWidth != net.headWidth ==> r.net.head == net.head
    ensures !obj.ParamMap? ==> r.net == net
  {
    match obj
    case ParamMap(sd) =>
      if sd.headWidth == net.headWidth then Loading(Net(net.headWidth, sd.backbone, sd.head), None)
      else Loading(net.(backbone := sd.backbone), Some("size mismatch for fc.weight"))
    case Dict(_) => Loading(net, Some("Missing key(s) in state_dict"))
    case StrList(_) => Loading(net, Some("Expected state_dict to be dict-like"))
    case OtherObject => Loading(net, Some("Expected state_dict to be dict-like"))
  }

  /** Saving a model's parameters and loading them into a model of the same shape restores it. */
  lemma StateDictRoundTrip(blank: Net, trained: Net)
    requires blank.headWidth == trained.headWidth
    ensures LoadStateDict(blank, ParamMap(StateDictOf(trained))) == Loading(trained, None)
  {
  }
}
