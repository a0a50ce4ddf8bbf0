/**
  * `LumosClassifier`: the audio command poller. A timer task, scheduled at
  * most once at a time, runs one inference per tick and forwards the command
  * it selects ("on", "off" or none) to the single registered listener.
  */
module AudioInference {

  import opened Wrappers

  /** One scored label of a classification head. */
  datatype Category = Category(name: string, score: int)

  /** One head of the classifier output, with its categories. */
  datatype Classifications = Classifications(categories: seq<Category>)

  /** What a tick hands to the listener: Kotlin's `String?`. */
  type Command = Option<string>

  /** The two labels that are passed on. */
  predicate IsCommandLabel(s: string)
  {
    s == "on" || s == "off"
  }

  /** `cs[i]` has the highest score, and every earlier category a strictly
      lower one: the element `maxByOrNull` returns. */
  ghost predicate IsFirstMaximum(cs: seq<Category>, i: int)
  {
    && 0 <= i < |cs|
    && (forall j :: 0 <= j < |cs| ==> cs[j].score <= cs[i].score)
    && (forall j :: 0 <= j < i ==> cs[j].score < cs[i].score)
  }

  lemma FirstMaximumUnique(cs: seq<Category>, i: int, j: int)
    requires IsFirstMaximum(cs, i) && IsFirstMaximum(cs, j)
    ensures i == j
  {
    assert cs[i].score == cs[j].score;
  }

  /** Every first maximum is the known one. */
  lemma FirstMaximumIs(cs: seq<Category>, m: int)
    requires IsFirstMaximum(cs, m)
    ensures forall i :: IsFirstMaximum(cs, i) ==> i == m
  {
    forall i | IsFirstMaximum(cs, i)
      ensures i == m
    {
      FirstMaximumUnique(cs, i, m);
    }
  }

  /** The scan inside `maxByOrNull`: `best` is the first maximum of `cs[..k]`,
      and a later element replaces it only with a strictly greater score. */
  function MaxIndexFrom(cs: seq<Category>, best: nat, k: nat): (m: nat)
    requires best < k <= |cs|
    requires IsFirstMaximum(cs[..k], best)
    ensures IsFirstMaximum(cs, m)
    decreases |cs| - k
  {
    if k == |cs| then
      assert cs[..k] == cs;
      best
    else
      MaxIndexFrom(cs, if cs[best].score < cs[k].score then k else best, k + 1)
  }

  /** The position of the element `maxByOrNull { it.second }` picks. */
  function MaxIndex(cs: seq<Category>): (m: nat)
    requires |cs| > 0
    ensures IsFirstMaximum(cs, m)
  {
    MaxIndexFrom(cs, 0, 1)
  }

  /** `inference()` once `classifier.classify` has produced `output`: the
      label of the first highest-scoring category of the first head, if that
      label is "on" or "off"; null for an empty output, a head without
      categories, or any other winning label. */
  function Inference(output: seq<Classifications>): (command: Command)
    ensures output == [] ==> command == None
    ensures output != [] && output[0].categories == [] ==> command == None
    ensures command.Some? ==> IsCommandLabel(command.value)
    ensures forall i :: output != [] && IsFirstMaximum(output[0].categories, i) ==>
      command == if IsCommandLabel(output[0].categories[i].name)
                 then Some(output[0].categories[i].name) else None
  {
    if output == [] then None
    else if output[0].categories == [] then None
    else
      var cs := output[0].categories;
      var m := MaxIndex(cs);
      FirstMaximumIs(cs, m);
      var maxPair := cs[m];
      if IsCommandLabel(maxPair.name) then Some(maxPair.name) else None
  }

  /** On a tie for the highest score the earlier category decides. */
  lemma TieGoesToFirst(first: Category, second: Category, rest: seq<Category>)
    requires first.score == second.score
    requires forall j :: 0 <= j < |rest| ==> rest[j].score <= first.score
    ensures Inference([Classifications([first, second] + rest)])
         == if IsCommandLabel(first.name) then Some(first.name) else None
  {
    assert IsFirstMaximum([first, second] + rest, 0);
  }

  /** One call of the listener made by a tick. */
  datatype Delivery<L> = Delivery(listener: L, command: Command)

  /** The poller. `L` stands for the `DetectorListener` implementation. */
  class LumosClassifier<L> {
    /** `detectorListener` */
    var detectorListener: Option<L>
    /** `task`: the scheduled timer task, by its number */
    var task: Option<nat>
    /** How many timer tasks have been scheduled; they are numbered 0, 1, ... */
    var scheduled: nat
    /** The numbers of the tasks that have been cancelled */
    var cancelled: set<nat>

    /** The timer tasks that are scheduled and not cancelled. */
    ghost function LiveTasks(): set<nat>
      reads this
    {
      set id: nat | id < scheduled && id !in cancelled
    }

    /** Only scheduled tasks get cancelled, and the one live timer task is
        the one `task` holds, if any. */
    ghost predicate Valid()
      reads this
    {
      && (task.Some? ==> task.value < scheduled)
      && (forall id :: id in cancelled ==> id < scheduled)
      && LiveTasks() == if task.Some? then {task.value} else {}
    }

    /** `LumosClassifier()`: no listener, no task. */
    constructor ()
      ensures Valid()
      ensures detectorListener == None && task == None
      ensures scheduled == 0 && cancelled == {}
    {
      detectorListener := None;
      task := None;
      scheduled := 0;
      cancelled := {};
    }

    /** `initialize`: model loading and recording are not modelled; it ends
        by starting the poller. */
    method Initialize()
      requires Valid()
      modifies this
      ensures Valid()
      ensures detectorListener == old(detectorListener) && cancelled == old(cancelled)
      ensures old(task).Some? ==> task == old(task) && scheduled == old(scheduled)
      ensures old(task).None? ==> task == Some(old(scheduled)) && scheduled == old(scheduled) + 1
    {
      StartInferencing();
    }

    /** `startInferencing`: schedules a timer task only when none is held. */
    method StartInferencing()
      requires Valid()
      modifies this
      ensures Valid()
      ensures detectorListener == old(detectorListener) && cancelled == old(cancelled)
      ensures old(task).Some? ==> task == old(task) && scheduled == old(scheduled)
      ensures old(task).None? ==> task == Some(old(scheduled)) && scheduled == old(scheduled) + 1
      ensures task.Some? && LiveTasks() == {task.value}
    {
      if task == None {
        task := Some(scheduled);
        scheduled := scheduled + 1;
        assert scheduled - 1 in LiveTasks();
        assert LiveTasks() == {scheduled - 1};
      }
    }

    /** `stopInferencing`: cancels the held task, if any, and forgets it. */
    method StopInferencing()
      requires Valid()
      modifies this
      ensures Valid()
      ensures task == None && LiveTasks() == {}
      ensures detectorListener == old(detectorListener) && scheduled == old(scheduled)
      ensures cancelled == old(cancelled) + if old(task).Some? then {old(task).value} else {}
    {
      if task.Some? {
        cancelled := cancelled + {task.value};
      }
      task := None;
    }

    /** `setDetectorListener`: the new listener replaces the old one. */
    method SetDetectorListener(listener: L)
      requires Valid()
      modifies this
      ensures Valid()
      ensures detectorListener == Some(listener)
      ensures task == old(task) && scheduled == old(scheduled) && cancelled == old(cancelled)
    {
      detectorListener := Some(listener);
    }

    /** One run of the timer task's body, given what `classify` returned:
        nothing runs without a task; otherwise the inferred command, null
        included, goes to the current listener, if there is one. */
    method Tick(output: seq<Classifications>) returns (delivery: Option<Delivery<L>>)
      ensures delivery.Some? <==> task.Some? && detectorListener.Some?
      ensures delivery.Some? ==>
        delivery.value == Delivery(detectorListener.value, Inference(output))
    {
      if task.Some? {
        var command := Inference(output);
        if detectorListener.Some? {
          delivery := Some(Delivery(detectorListener.value, command));
        } else {
          delivery := None;
        }
      } else {
        delivery := None;
      }
    }
  }

  /** Whatever the history of starts and stops, at most one timer task ticks. */
  lemma AtMostOneLiveTask<L>(c: LumosClassifier<L>)
    requires c.Valid()
    ensures |c.LiveTasks()| <= 1
  {
  }
}
