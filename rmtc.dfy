/**
  The state an RMTC model keeps while it is set up (smt/methods/rmtc.py,
  `RMTC._initialize`, lines 48-81): its option dictionary, which
  initialisation rewrites in place, the training-point dictionary it reads,
  and the `num` table it stores.
 */
module Surrogate {
  import opened Wrappers
  import opened Arith
  import opened OptionValues
  import opened SizeTable

  /** The options that are broadcast to one value per input, in loop order. */
  const BroadcastNames: seq<string> := ["smoothness", "num_elements"]

  class Rmtc {
    var options: map<string, OptionValue>
    /** `training_points[None]`, in dictionary order. */
    var trainingPoints: seq<Entry>
    /** `self.num`: absent until `Initialize` has run. */
    var num: Option<Sizes>

    constructor (options: map<string, OptionValue>, trainingPoints: seq<Entry>)
      ensures this.options == options && this.trainingPoints == trainingPoints
      ensures num == None
    {
      this.options := options;
      this.trainingPoints := trainingPoints;
      num := None;
    }

    /**
      `_initialize`. Fails, changing nothing, when there is no training set
      under key 0 (Python raises `KeyError` there before touching any state).
      Otherwise it broadcasts `smoothness` and `num_elements` to one entry
      per input, leaves the other options alone, and stores the size table
      of the grid `num_elements` describes.
     */
    method Initialize() returns (ok: bool)
      requires "smoothness" in options && "num_elements" in options
      modifies this`options, this`num
      ensures ok == Find(trainingPoints, 0).Some?
      ensures !ok ==> options == old(options) && num == old(num)
      ensures ok ==>
        var nx := Find(trainingPoints, 0).value.xCols;
        options.Keys == old(options).Keys &&
        options["smoothness"] == Sequence(Broadcast(old(options)["smoothness"], nx)) &&
        options["num_elements"] == Sequence(Broadcast(old(options)["num_elements"], nx)) &&
        (forall k :: k in old(options) && k !in BroadcastNames ==> options[k] == old(options)[k])
      ensures ok ==>
        var p := Find(trainingPoints, 0).value;
        num == Some(ComputeSizes(p.xCols, p.yCols,
                                 ToInts(Broadcast(old(options)["num_elements"], p.xCols)),
                                 TotalRows(trainingPoints)))
    {
      var first := Find(trainingPoints, 0);
      if first.None? {
        return false;
      }
      var nx := first.value.xCols;
      var i := 0;
      while i < |BroadcastNames|
        invariant 0 <= i <= |BroadcastNames|
        invariant options.Keys == old(options).Keys
        invariant forall j :: 0 <= j < i ==>
          options[BroadcastNames[j]] == Sequence(Broadcast(old(options)[BroadcastNames[j]], nx))
        invariant forall k :: k in options && k !in BroadcastNames[..i] ==> options[k] == old(options)[k]
      {
        var name := BroadcastNames[i];
        if options[name].PyNumber? {
          options := options[name := Sequence(Repeat(options[name].x, nx))];
        }
        options := options[name := Sequence(AtLeast1d(options[name]))];
        i := i + 1;
      }
      assert BroadcastNames[0] == "smoothness" && BroadcastNames[1] == "num_elements";
      var elemList := ToInts(options["num_elements"].xs);
      var t := CountTrainingPoints(trainingPoints);
      num := Some(ComputeSizes(nx, first.value.yCols, elemList, t));
      ok := true;
    }
  }
}
