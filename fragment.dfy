/**
  * The two screens. `CameraFragment` summarises each camera frame while
  * detection is on and switches detection with the audio commands;
  * `AudioFragment` shows the last command and pauses and resumes its poller.
  * Each owns a `LumosClassifier` whose listener it is.
  */
module Fragment {

  import opened Wrappers
  import opened Aggregation
  import opened AudioInference
  import opened ModeGate

  /** A detection as the handler reads it: its category labels, best first. */
  datatype Detection = Detection(categories: seq<string>)

  /** Every detection carries a category: the handler reads `categories[0]`. */
  predicate HasCategories(results: seq<Detection>)
  {
    forall i :: 0 <= i < |results| ==> |results[i].categories| > 0
  }

  /** `results.map { it.categories[0].label }` */
  function FirstLabels(results: seq<Detection>): (labels: seq<string>)
    requires HasCategories(results)
    ensures |labels| == |results|
  {
    seq(|results|, i requires 0 <= i < |results| => results[i].categories[0])
  }

  /** The text the person view shows after a frame is handled with detection on. */
  function ShownText(results: Option<seq<Detection>>): string
    requires results.Some? ==> HasCategories(results.value)
  {
    match results
    case None => NothingDetected
    case Some(detections) => SpeechOf(FirstLabels(detections))
  }

  /** What `overlay.setResults` was last given. */
  datatype Overlay = Overlay(results: seq<Detection>, imageHeight: int, imageWidth: int)

  /** A registered `DetectorListener` of a `LumosClassifier`. */
  datatype Listener = ToCamera(camera: CameraFragment) | ToAudio(audio: AudioFragment)
  {
    function Target(): object
    {
      match this
      case ToCamera(c) => c
      case ToAudio(a) => a
    }
  }

  /** `detectorListener?.onResults(command)` inside the timer task. */
  method Dispatch(d: Delivery<Listener>)
    modifies d.listener.Target()
    ensures d.listener.ToCamera? ==>
      var cam := d.listener.camera;
      && cam.lumos == NextLumos(old(cam.lumos), d.command)
      && cam.personView == NextPersonView(old(cam.personView), d.command)
      && cam.overlay == old(cam.overlay) && cam.redraws == old(cam.redraws)
      && cam.spoken == old(cam.spoken) && cam.timeToSpeak == old(cam.timeToSpeak)
    ensures d.listener.ToAudio? ==>
      d.listener.audio.onOffView == NextStatusView(old(d.listener.audio.onOffView), d.command)
  {
    match d.listener
    case ToCamera(cam) => cam.OnResults(d.command);
    case ToAudio(audio) => audio.OnResults(d.command);
  }

  class CameraFragment {
    /** `lumos`: whether frames are summarised */
    var lumos: bool
    /** `personView` */
    var personView: TextView
    /** the overlay's last results, if any */
    var overlay: Option<Overlay>
    /** how many times the overlay was invalidated */
    var redraws: nat
    /** the texts handed to `tts.speak`, in order */
    var spoken: seq<string>
    /** `timeToSpeak` */
    var timeToSpeak: int
    /** `lumosClassifier` */
    const lumosClassifier: LumosClassifier<Listener>

    /** The poller is consistent and reports to this screen. */
    ghost predicate Valid()
      reads this, lumosClassifier
    {
      lumosClassifier.Valid() && lumosClassifier.detectorListener == Some(ToCamera(this))
    }

    /** The person view's background shows whether detection is on. */
    ghost predicate Agrees()
      reads this
    {
      CameraAgrees(lumos, personView)
    }

    /** `onViewCreated`: detection off, the layout's person view, and a poller
        that is started and reports here. Camera and speech setup are not
        modelled. */
    constructor (layoutView: TextView)
      ensures Valid() && fresh(lumosClassifier)
      ensures !lumos && personView == layoutView
      ensures overlay == None && redraws == 0 && spoken == [] && timeToSpeak == 0
      ensures lumosClassifier.task == Some(0) && lumosClassifier.LiveTasks() == {0}
      ensures lumosClassifier.scheduled == 1 && lumosClassifier.cancelled == {}
      ensures layoutView.background.LayoutColor? ==> Agrees()
    {
      lumos := false;
      personView := layoutView;
      overlay := None;
      redraws := 0;
      spoken := [];
      timeToSpeak := 0;
      var classifier := new LumosClassifier<Listener>();
      classifier.Initialize();
      lumosClassifier := classifier;
      new;
      lumosClassifier.SetDetectorListener(ToCamera(this));
    }

    /** `onObjectDetectionResults`: with detection off nothing happens. With it
        on the overlay gets the results (none for null) and is redrawn, the
        person view shows the frame's summary ("Nothing detected." for null),
        and a non-null result is also spoken and sets `timeToSpeak`. */
    method OnObjectDetectionResults(results: Option<seq<Detection>>, imageHeight: int, imageWidth: int)
      requires lumos && results.Some? ==> HasCategories(results.value)
      modifies this
      ensures lumos == old(lumos)
      ensures !lumos ==>
        && overlay == old(overlay) && redraws == old(redraws) && personView == old(personView)
        && spoken == old(spoken) && timeToSpeak == old(timeToSpeak)
      ensures lumos ==>
        && overlay == Some(Overlay(results.GetOr([]), imageHeight, imageWidth))
        && redraws == old(redraws) + 1
        && personView == old(personView).(text := ShownText(results))
      ensures lumos && results.None? ==>
        personView.text == NothingDetected && spoken == old(spoken) && timeToSpeak == old(timeToSpeak)
      ensures lumos && results.Some? ==> spoken == old(spoken) + [personView.text] && timeToSpeak == 1
      ensures old(Agrees()) ==> Agrees()
    {
      if lumos {
        overlay := Some(Overlay(results.GetOr([]), imageHeight, imageWidth));
        var speech := NothingDetected;
        if results.Some? {
          var detectedObjects := FirstLabels(results.value);
          var detectedTargets := FilterTargets(detectedObjects);
          var totalTargetCount := |detectedTargets|;
          var objectCounts := ObjectCounts(detectedObjects);
          if totalTargetCount == 0 {
            speech := NothingDetected;
          } else {
            speech := RenderSpeech(objectCounts);
          }
          spoken := spoken + [speech];
          timeToSpeak := 1;
        }
        redraws := redraws + 1;
        personView := personView.(text := speech);
      }
    }

    /** `onResults`: "on" and "off" switch detection and recolour the person view. */
    method OnResults(command: Command)
      modifies this
      ensures lumos == NextLumos(old(lumos), command)
      ensures personView == NextPersonView(old(personView), command)
      ensures overlay == old(overlay) && redraws == old(redraws)
      ensures spoken == old(spoken) && timeToSpeak == old(timeToSpeak)
      ensures old(Agrees()) ==> Agrees()
    {
      if command == Some("on") {
        lumos := true;
        personView := personView.(background := ActiveBackground, textColor := ActiveText);
      } else if command == Some("off") {
        lumos := false;
        personView := personView.(background := IdleBackground, textColor := IdleText);
      }
    }

    /** One tick of this screen's poller, given the classifier output: the
        inferred command reaches `onResults` while the task is scheduled. */
    method Poll(output: seq<Classifications>)
      requires Valid()
      modifies this
      ensures Valid()
      ensures lumos == if lumosClassifier.task.Some? then NextLumos(old(lumos), Inference(output)) else old(lumos)
      ensures personView == if lumosClassifier.task.Some?
                            then NextPersonView(old(personView), Inference(output)) else old(personView)
      ensures overlay == old(overlay) && redraws == old(redraws)
      ensures spoken == old(spoken) && timeToSpeak == old(timeToSpeak)
    {
      var delivery := lumosClassifier.Tick(output);
      if delivery.Some? {
        Dispatch(delivery.value);
      }
    }
  }

  class AudioFragment {
    /** `onOffView` */
    var onOffView: TextView
    /** `lumosClassifier` */
    const lumosClassifier: LumosClassifier<Listener>

    /** The poller is consistent and reports to this screen. */
    ghost predicate Valid()
      reads this, lumosClassifier
    {
      lumosClassifier.Valid() && lumosClassifier.detectorListener == Some(ToAudio(this))
    }

    /** `onViewCreated`: the layout's status view and a started poller that reports here. */
    constructor (layoutView: TextView)
      ensures Valid() && fresh(lumosClassifier)
      ensures onOffView == layoutView
      ensures lumosClassifier.task == Some(0) && lumosClassifier.LiveTasks() == {0}
      ensures lumosClassifier.scheduled == 1 && lumosClassifier.cancelled == {}
    {
      onOffView := layoutView;
      var classifier := new LumosClassifier<Listener>();
      classifier.Initialize();
      lumosClassifier := classifier;
      new;
      lumosClassifier.SetDetectorListener(ToAudio(this));
    }

    /** `onPause`: the poller stops; no timer task is left ticking. */
    method OnPause()
      requires Valid()
      modifies lumosClassifier
      ensures Valid()
      ensures lumosClassifier.task == None && lumosClassifier.LiveTasks() == {}
      ensures lumosClassifier.scheduled == old(lumosClassifier.scheduled)
      ensures lumosClassifier.cancelled == old(lumosClassifier.cancelled)
        + if old(lumosClassifier.task).Some? then {old(lumosClassifier.task).value} else {}
    {
      lumosClassifier.StopInferencing();
    }

    /** `onResume`: the poller runs again, with exactly one timer task; a
        resume while it runs schedules nothing new. */
    method OnResume()
      requires Valid()
      modifies lumosClassifier
      ensures Valid()
      ensures lumosClassifier.task.Some? && lumosClassifier.LiveTasks() == {lumosClassifier.task.value}
      ensures old(lumosClassifier.task).Some? ==>
        lumosClassifier.task == old(lumosClassifier.task)
        && lumosClassifier.scheduled == old(lumosClassifier.scheduled)
      ensures old(lumosClassifier.task).None? ==>
        lumosClassifier.task == Some(old(lumosClassifier.scheduled))
        && lumosClassifier.scheduled == old(lumosClassifier.scheduled) + 1
      ensures lumosClassifier.cancelled == old(lumosClassifier.cancelled)
    {
      lumosClassifier.StartInferencing();
    }

    /** `onResults`: "on" and "off" rewrite the status view; nothing else does. */
    method OnResults(command: Command)
      modifies this
      ensures onOffView == NextStatusView(old(onOffView), command)
    {
      if command == Some("on") {
        onOffView := TextView("Lumos ON", ActiveBackground, ActiveText);
      } else if command == Some("off") {
        onOffView := TextView("Lumos OFF", IdleBackground, IdleText);
      }
    }

    /** One tick of this screen's poller, given the classifier output. */
    method Poll(output: seq<Classifications>)
      requires Valid()
      modifies this
      ensures Valid()
      ensures onOffView == if lumosClassifier.task.Some?
                           then NextStatusView(old(onOffView), Inference(output)) else old(onOffView)
    {
      var delivery := lumosClassifier.Tick(output);
      if delivery.Some? {
        Dispatch(delivery.value);
      }
    }
  }
}
