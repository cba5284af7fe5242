/**
 * The training script (`backend/train_model.py`) without the numerics:
 * the sorted class list and its index map, the dataset relabelling, the
 * batching and step counting of the training loop, and the artifact it
 * saves. Gradients, the loss and the optimizer's arithmetic are not
 * modelled; the learned parameters are an abstract value.
 */
module TrainModel {
  import opened Base
  import opened Text
  import opened Network
  import ModelUtils

  // ---------------------------------------------------------------------
  // Class order
  // ---------------------------------------------------------------------

  /** The category literals in the order the script writes them. */
  function CategoryLiterals(): seq<string> {
    ["Battery", "Keyboard", "Mobile", "Mouse", "PCB", "Player", "Printer", "Television", "Washing Machine"]
  }

  /** `CLASS_NAMES = sorted([...])`: the literals, each one kept, nothing added. */
  function ClassNames(): (names: seq<string>)
    ensures multiset(names) == multiset(CategoryLiterals())
  {
    SortedAscending(CategoryLiterals());
    Sorted(CategoryLiterals())
  }

  /** `CLASS_NAMES` holds exactly the literals, ascending. */
  lemma ClassNamesIsSortedLiterals()
    ensures multiset(ClassNames()) == multiset(CategoryLiterals())
    ensures Ascending(ClassNames())
  {
    SortedAscending(CategoryLiterals());
  }

  /**
   * Training and inference agree on the class order: sorting the literals
   * gives the inference list element for element, because that list is
   * already strictly ascending. Index `i` of the head therefore means the
   * same category on both sides.
   */
  lemma TrainingOrderMatchesInference()
    ensures ClassNames() == ModelUtils.GetClassNames()
    ensures |ClassNames()| == 9
    ensures Distinct(ClassNames())
  {
    ModelUtils.ClassNamesSorted();
    SortedOfAscending(ModelUtils.GetClassNames());
  }

  /** `CLASS_NAMES` has nine pairwise distinct entries. */
  lemma ClassNamesShape()
    ensures |ClassNames()| == 9
    ensures Distinct(ClassNames())
  {
    TrainingOrderMatchesInference();
  }

  /** `class_to_idx = {c: i for i, c in enumerate(names)}` */
  function ClassToIdx(names: seq<string>): (m: map<string, nat>)
    ensures forall c :: c in m ==> m[c] < |names| && names[m[c]] == c
  {
    ZipMap(names, Range(|names|))
  }

  /**
   * Over distinct names the index map is a bijection between the names
   * and their positions: every name maps to its own position and every
   * key is one of the names.
   */
  lemma ClassToIdxOfDistinct(names: seq<string>)
    requires Distinct(names)
    ensures forall i :: 0 <= i < |names| ==> names[i] in ClassToIdx(names) && ClassToIdx(names)[names[i]] == i
    ensures forall c :: c in ClassToIdx(names) <==> c in names
  {
    ZipMapDistinct(names, Range(|names|));
  }

  /** For the training classes the index map is a bijection onto `0..8`. */
  lemma ClassToIdxBijection()
    ensures forall i :: 0 <= i < |ClassNames()| ==> ClassToIdx(ClassNames())[ClassNames()[i]] == i
    ensures forall c :: c in ClassToIdx(ClassNames()) <==> c in ClassNames()
    ensures forall c :: c in ClassToIdx(ClassNames()) ==> ClassToIdx(ClassNames())[c] < 9
  {
    ClassNamesShape();
    ClassToIdxOfDistinct(ClassNames());
  }

  /** What `datasets.ImageFolder` found: class names, their index map, and each image's label index. */
  datatype ImageFolder = ImageFolder(classes: seq<string>, classToIdx: map<string, nat>, sampleLabels: seq<nat>)

  /**
   * The script overwrites the scanned class list and index map with the
   * fixed ones; the label indices already assigned to the images are kept.
   */
  function OverrideClasses(d: ImageFolder): (r: ImageFolder)
    ensures r.classes == ClassNames()
    ensures forall i :: 0 <= i < |r.classes| ==> r.classes[i] in r.classToIdx && r.classToIdx[r.classes[i]] == i
    ensures forall c :: c in r.classToIdx <==> c in r.classes
    ensures r.sampleLabels == d.sampleLabels
  {
    var names := ClassNames();
    ClassNamesShape();
    ClassToIdxOfDistinct(names);
    ImageFolder(names, ClassToIdx(names), d.sampleLabels)
  }

  /**
   * When the folder scan found exactly the fixed classes, the override
   * changes nothing; otherwise an image keeps the index of its folder in
   * the scan, which names a different class whenever the two lists differ
   * at that index.
   */
  lemma OverrideOnMatchingScan(d: ImageFolder)
    requires d.classes == ClassNames() && d.classToIdx == ClassToIdx(ClassNames())
    ensures OverrideClasses(d) == d
  {
  }

  // ---------------------------------------------------------------------
  // Batching and the training loop
  // ---------------------------------------------------------------------

  const Epochs: nat := 10
  const BatchSize: nat := 16

  /** `ceil(n / d)`: the fewest blocks of `d` that cover `n`. */
  function CeilDiv(n: nat, d: nat): (q: nat)
    requires d > 0
    ensures q * d >= n
    ensures q == 0 || (q - 1) * d < n
  {
    if n == 0 then 0 else 1 + CeilDiv(if n <= d then 0 else n - d, d)
  }

  /**
   * One epoch of `DataLoader(..., batch_size=size)`: consecutive batches of
   * `size` samples, the last one holding the remainder (nothing is dropped).
   */
  function Batches<T>(s: seq<T>, size: nat): (bs: seq<seq<T>>)
    requires size > 0
    ensures |bs| == CeilDiv(|s|, size)
    ensures forall i :: 0 <= i < |bs| ==> 0 < |bs[i]| <= size
    ensures forall i :: 0 <= i < |bs| - 1 ==> |bs[i]| == size
    decreases |s|
  {
    if |s| == 0 then []
    else if |s| <= size then [s]
    else
      [s[..size]] + Batches(s[size..], size)
  }

  function Concat<T>(ss: seq<seq<T>>): seq<T> {
    if |ss| == 0 then [] else Concat(ss[..|ss| - 1]) + ss[|ss| - 1]
  }

  /** The batches of an epoch, put back together, are the epoch's sample order. */
  lemma {:induction false} BatchesConcat<T>(s: seq<T>, size: nat)
    requires size > 0
    ensures Concat(Batches(s, size)) == s
    decreases |s|
  {
    if |s| > size {
      var rest := Batches(s[size..], size);
      BatchesConcat(s[size..], size);
      ConcatPrepend(s[..size], rest);
      assert s == s[..size] + s[size..];
    } else if |s| > 0 {
      assert Concat([s]) == Concat([s][..0]) + s;
    }
  }

  lemma {:induction false} ConcatPrepend<T>(x: seq<T>, ss: seq<seq<T>>)
    ensures Concat([x] + ss) == x + Concat(ss)
    decreases |ss|
  {
    if |ss| == 0 {
      assert [x] + ss == [x];
      assert Concat([x]) == Concat([x][..0]) + x;
    } else {
      var n := |ss| - 1;
      ConcatPrepend(x, ss[..n]);
      assert ([x] + ss)[..n + 1] == [x] + ss[..n];
    }
  }

  /** What one run of the script produces. */
  datatype TrainingRun = TrainingRun(steps: nat, samplesSeen: nat, artifact: PyObject)

  /** The network the script trains: a head as wide as `CLASS_NAMES`, carrying learned values. */
  function TrainedNet(run: nat): (net: Net)
    ensures net.headWidth == |ClassNames()| == 9
    ensures net.backbone == Learned(run) && net.head == Learned(run)
  {
    ClassNamesShape();
    Net(|ClassNames()|, Learned(run), Learned(run))
  }

  /** `torch.save({"model_state": model.state_dict(), "class_names": CLASS_NAMES}, MODEL_PATH)` */
  function SavedArtifact(net: Net, classNames: seq<string>): (obj: PyObject)
    ensures obj.Dict? && "model_state" in obj.entries && "class_names" in obj.entries
    ensures obj.entries["model_state"] == ParamMap(StateDictOf(net))
    ensures obj.entries["class_names"] == StrList(classNames)
  {
    Dict(map["model_state" := ParamMap(StateDictOf(net)), "class_names" := StrList(classNames)])
  }

  /**
   * One epoch over a sample order: the order is walked in batches of
   * sixteen, the last batch kept partial, taking one optimizer step per
   * batch.
   */
  method RunEpoch<S>(order: seq<S>) returns (steps: nat, seen: nat)
    ensures steps == CeilDiv(|order|, BatchSize)
    ensures seen == |order|
  {
    var batches := Batches(order, BatchSize);
    steps := 0;
    seen := 0;
    var b := 0;
    while b < |batches|
      invariant b <= |batches|
      invariant steps == b
      invariant seen == |Concat(batches[..b])|
    {
      // zero_grad, forward pass, loss, backward pass on batches[b], then:
      steps := steps + 1;
      seen := seen + |batches[b]|;
      assert batches[..b + 1][..b] == batches[..b];
      b := b + 1;
    }
    assert batches[..b] == batches;
    BatchesConcat(order, BatchSize);
  }

  /** The loop over epochs: each epoch walks a fresh shuffle of the samples. */
  method RunEpochs<S>(samples: seq<S>, shuffles: seq<seq<S>>) returns (steps: nat, seen: nat)
    requires |shuffles| == Epochs
    requires forall e :: 0 <= e < Epochs ==> multiset(shuffles[e]) == multiset(samples)
    ensures steps == Epochs * CeilDiv(|samples|, BatchSize)
    ensures seen == Epochs * |samples|
  {
    var n := |samples|;
    var perEpoch := CeilDiv(n, BatchSize);
    steps := 0;
    seen := 0;
    var epoch := 0;
    while epoch < Epochs
      invariant epoch <= Epochs
      invariant steps == epoch * perEpoch
      invariant seen == epoch * n
    {
      var order := shuffles[epoch];
      assert |order| == n by {
        assert |multiset(order)| == |multiset(samples)|;
      }
      var epochSteps, epochSeen := RunEpoch(order);
      steps := steps + epochSteps;
      seen := seen + epochSeen;
      assert (epoch + 1) * perEpoch == epoch * perEpoch + perEpoch;
      assert (epoch + 1) * n == epoch * n + n;
      epoch := epoch + 1;
    }
  }

  /**
   * The label `ImageFolder` gives each image, in the order `Concat` lists
   * them: the index of the image's folder in the scan.
   */
  function ScanLabels<S>(folders: seq<seq<S>>): (labels: seq<nat>)
    ensures |labels| == |Concat(folders)|
    ensures forall k :: 0 <= k < |labels| ==> labels[k] < |folders|
    ensures SegmentsLabelled(folders, labels)
    decreases |folders|
  {
    if |folders| == 0 then []
    else
      var n: nat := |folders| - 1;
      var earlier := ScanLabels(folders[..n]);
      ScanLabelsExtend(folders[..n], folders[n], earlier);
      assert folders[..n] + [folders[n]] == folders;
      earlier + seq(|folders[n]|, _ => n)
  }

  /** The images of folder `c`, at positions `|Concat(folders[..c])|` onwards, are each labelled `c`. */
  predicate SegmentsLabelled<S>(folders: seq<seq<S>>, labels: seq<nat>) {
    forall c :: 0 <= c < |folders| ==>
      |Concat(folders[..c])| + |folders[c]| <= |labels|
      && forall k :: |Concat(folders[..c])| <= k < |Concat(folders[..c])| + |folders[c]| ==> labels[k] == c
  }

  /** Appending a folder appends its images, each labelled with the folder's index. */
  lemma ScanLabelsExtend<S>(prefix: seq<seq<S>>, last: seq<S>, earlier: seq<nat>)
    requires |earlier| == |Concat(prefix)|
    requires SegmentsLabelled(prefix, earlier)
    ensures SegmentsLabelled(prefix + [last], earlier + seq(|last|, _ => |prefix|))
  {
    var folders := prefix + [last];
    var labels := earlier + seq(|last|, _ => |prefix|);
    forall c | 0 <= c < |folders|
      ensures |Concat(folders[..c])| + |folders[c]| <= |labels|
      ensures forall k :: |Concat(folders[..c])| <= k < |Concat(folders[..c])| + |folders[c]| ==> labels[k] == c
    {
      if c < |prefix| {
        assert folders[..c] == prefix[..c] && folders[c] == prefix[c];
      } else {
        assert folders[..c] == prefix;
      }
    }
  }

  /**
   * Over non-empty folders some image carries a label the head cannot
   * output exactly when there are more folders than outputs: the images
   * of the last folder are labelled with its index.
   */
  lemma ScanLabelsInRange<S>(folders: seq<seq<S>>, width: nat)
    requires forall c :: 0 <= c < |folders| ==> |folders[c]| > 0
    ensures (exists k :: 0 <= k < |ScanLabels(folders)| && ScanLabels(folders)[k] >= width) <==> |folders| > width
  {
    var labels := ScanLabels(folders);
    if |folders| > width {
      var n: nat := |folders| - 1;
      var last := seq(|folders[n]|, _ => n);
      assert labels == ScanLabels(folders[..n]) + last;
      assert |last| > 0 && last[|last| - 1] == n;
      var k := |labels| - 1;
      assert labels[k] == n >= width;
      assert 0 <= k < |ScanLabels(folders)| && ScanLabels(folders)[k] >= width;
    } else {
      assert forall k :: 0 <= k < |labels| ==> labels[k] < width;
    }
  }

  /**
   * Whether the loss meets a target the head cannot output: some image of
   * the scan is labelled at or beyond `width`.
   */
  method LabelBeyondHead<S>(folders: seq<seq<S>>, width: nat) returns (beyond: bool)
    requires forall c :: 0 <= c < |folders| ==> |folders[c]| > 0
    ensures beyond <==> |folders| > width
  {
    var labels := ScanLabels(folders);
    ScanLabelsInRange(folders, width);
    beyond := exists k :: 0 <= k < |labels| && labels[k] >= width;
  }

  /**
   * The training script over the images found in the class folders, listed
   * in the order of the scan. `ImageFolder` raises when there is no class
   * folder or when some class folder holds no image. Its labels are the
   * folder indices, which the override of the class list leaves in place,
   * so with more folders than `CLASS_NAMES` some image is labelled beyond
   * the nine-way head; the first epoch reaches it and the loss raises
   * "Target is out of bounds", before anything is saved. Otherwise ten
   * epochs are run over all the images and the composite artifact is saved.
   */
  method Train<S>(folders: seq<seq<S>>, shuffles: seq<seq<S>>, run: nat) returns (r: Result<TrainingRun>)
    requires |shuffles| == Epochs
    requires forall e :: 0 <= e < Epochs ==> multiset(shuffles[e]) == multiset(Concat(folders))
    ensures r.Err? <==>
              |folders| == 0 || (exists c :: 0 <= c < |folders| && |folders[c]| == 0) || |folders| > |ClassNames()|
    ensures r.Ok? ==> r.value.steps == Epochs * CeilDiv(|Concat(folders)|, BatchSize)
    ensures r.Ok? ==> r.value.samplesSeen == Epochs * |Concat(folders)|
    ensures r.Ok? ==> r.value.artifact == SavedArtifact(TrainedNet(run), ClassNames())
    ensures r.Ok? ==> r.value.steps >= Epochs && r.value.samplesSeen >= Epochs * |folders|
  {
    if |folders| == 0 {
      return Err("Couldn't find any class folder");
    }
    if exists c :: 0 <= c < |folders| && |folders[c]| == 0 {
      return Err("Found no valid file for the classes");
    }
    var beyond := LabelBeyondHead(folders, |ClassNames()|);
    if beyond {
      return Err("Target is out of bounds");
    }
    ConcatOfNonEmpty(folders);
    var steps, seen := RunEpochs(Concat(folders), shuffles);
    var artifact := SavedArtifact(TrainedNet(run), ClassNames());
    r := Ok(TrainingRun(steps, seen, artifact));
  }

  /** Folders that each hold at least one image give a non-empty dataset. */
  lemma {:induction false} ConcatOfNonEmpty<T>(ss: seq<seq<T>>)
    requires forall c :: 0 <= c < |ss| ==> |ss[c]| > 0
    ensures |Concat(ss)| >= |ss|
    decreases |ss|
  {
    if |ss| > 0 {
      ConcatOfNonEmpty(ss[..|ss| - 1]);
    }
  }

  /**
   * The saved artifact is accepted by the inference loader's composite
   * branch and restores exactly the trained network, with the class list
   * the script saved beside it.
   */
  lemma SavedArtifactLoads(run: nat)
    ensures var loaded := ModelUtils.LoadModel(ModelUtils.Stored(SavedArtifact(TrainedNet(run), ClassNames())));
            loaded.status == ModelUtils.LoadedComposite
            && loaded.net == TrainedNet(run)
            && StrList(loaded.classes) == SavedArtifact(TrainedNet(run), ClassNames()).entries["class_names"]
  {
    TrainingOrderMatchesInference();
    ModelUtils.CompositeLoadsModelState(SavedArtifact(TrainedNet(run), ClassNames()).entries, StateDictOf(TrainedNet(run)));
  }
}
