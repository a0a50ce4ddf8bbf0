/**
  * The two `onResults` handlers as state machines over the commands the poller
  * delivers: the camera screen's `lumos` flag and the colours of its person
  * view, and the audio screen's status view. "on" and "off" decide, every
  * other command (null included) changes nothing.
  */
module ModeGate {

  import opened Wrappers
  import opened AudioInference

  /** The colours the handlers set (the four `ProjectConfiguration` colours),
      and the colour a view had from its layout before any command. */
  datatype Color = ActiveBackground | ActiveText | IdleBackground | IdleText | LayoutColor(id: nat)

  /** What the handlers write on a `TextView`: its text and its two colours. */
  datatype TextView = TextView(text: string, background: Color, textColor: Color)

  /** The commands the handlers act on. */
  predicate IsDecisive(command: Command)
  {
    command == Some("on") || command == Some("off")
  }

  /** `CameraFragment.onResults` on the `lumos` flag. */
  function NextLumos(lumos: bool, command: Command): bool
  {
    if command == Some("on") then true
    else if command == Some("off") then false
    else lumos
  }

  /** `CameraFragment.onResults` on `personView`: colours only, never the text. */
  function NextPersonView(view: TextView, command: Command): TextView
  {
    if command == Some("on") then view.(background := ActiveBackground, textColor := ActiveText)
    else if command == Some("off") then view.(background := IdleBackground, textColor := IdleText)
    else view
  }

  /** `AudioFragment.onResults` on `onOffView`. */
  function NextStatusView(view: TextView, command: Command): TextView
  {
    if command == Some("on") then TextView("Lumos ON", ActiveBackground, ActiveText)
    else if command == Some("off") then TextView("Lumos OFF", IdleBackground, IdleText)
    else view
  }

  // ---------------------------------------------------------------------------
  // Runs of a handler over a sequence of commands

  /** The state after handling `commands` in order, starting from `s`. */
  function Run<S>(step: (S, Command) -> S, s: S, commands: seq<Command>): S
    decreases |commands|
  {
    if commands == [] then s else Run(step, step(s, commands[0]), commands[1..])
  }

  /** The state after each of the commands. */
  function Trace<S>(step: (S, Command) -> S, s: S, commands: seq<Command>): (t: seq<S>)
    ensures |t| == |commands|
    decreases |commands|
  {
    if commands == [] then []
    else [step(s, commands[0])] + Trace(step, step(s, commands[0]), commands[1..])
  }

  /** A step the commands other than "on" and "off" leave alone. */
  ghost predicate IgnoresOthers<S(!new)>(step: (S, Command) -> S)
  {
    forall s: S, c: Command :: !IsDecisive(c) ==> step(s, c) == s
  }

  /** A step for which handling a command a second time changes nothing. */
  ghost predicate Idempotent<S(!new)>(step: (S, Command) -> S)
  {
    forall s: S, c: Command :: step(step(s, c), c) == step(s, c)
  }

  lemma {:induction false} RunAppend<S>(step: (S, Command) -> S, s: S, a: seq<Command>, b: seq<Command>)
    ensures Run(step, s, a + b) == Run(step, Run(step, s, a), b)
    decreases |a|
  {
    if a == [] {
      assert a + b == b;
    } else {
      assert (a + b)[1..] == a[1..] + b;
      RunAppend(step, step(s, a[0]), a[1..], b);
    }
  }

  /** The `k`-th entry of the trace is the state after the first `k + 1` commands. */
  lemma {:induction false} TraceIsRun<S>(step: (S, Command) -> S, s: S, commands: seq<Command>, k: nat)
    requires k < |commands|
    ensures Trace(step, s, commands)[k] == Run(step, s, commands[..k + 1])
    decreases k
  {
    assert commands[..k + 1][1..] == commands[1..][..k];
    if k > 0 {
      TraceIsRun(step, step(s, commands[0]), commands[1..], k - 1);
    }
  }

  /** Commands none of which is "on" or "off" leave the state as it was. */
  lemma {:induction false} RunOfOthers<S(!new)>(step: (S, Command) -> S, s: S, commands: seq<Command>)
    requires IgnoresOthers(step)
    requires forall i :: 0 <= i < |commands| ==> !IsDecisive(commands[i])
    ensures Run(step, s, commands) == s
    decreases |commands|
  {
    if commands != [] {
      assert step(s, commands[0]) == s;
      RunOfOthers(step, s, commands[1..]);
    }
  }

  /** Only the last "on" or "off" matters: the state is what that command made
      of the state before it. */
  lemma RunLastDecisive<S(!new)>(step: (S, Command) -> S, s: S, commands: seq<Command>, k: nat)
    requires IgnoresOthers(step)
    requires k < |commands|
    requires forall i :: k < i < |commands| ==> !IsDecisive(commands[i])
    ensures Run(step, s, commands) == step(Run(step, s, commands[..k]), commands[k])
  {
    assert commands == commands[..k] + ([commands[k]] + commands[k + 1..]);
    RunAppend(step, s, commands[..k], [commands[k]] + commands[k + 1..]);
    var before := Run(step, s, commands[..k]);
    var tail := commands[k + 1..];
    assert forall i :: 0 <= i < |tail| ==> tail[i] == commands[k + 1 + i];
    RunOfOthers(step, step(before, commands[k]), tail);
  }

  /** A command repeated back to back has the effect of one. */
  lemma Stutter<S(!new)>(step: (S, Command) -> S, s: S, a: seq<Command>, c: Command, b: seq<Command>)
    requires Idempotent(step)
    ensures Run(step, s, a + [c, c] + b) == Run(step, s, a + [c] + b)
  {
    RunAppend(step, s, a + [c, c], b);
    RunAppend(step, s, a + [c], b);
    RunAppend(step, s, a, [c, c]);
    RunAppend(step, s, a, [c]);
    var m := Run(step, s, a);
    assert Run(step, m, [c, c]) == Run(step, step(m, c), [c]);
  }

  // ---------------------------------------------------------------------------
  // The camera screen

  /** "on" switches detection on, "off" switches it off, and every other
      command, null included, leaves it as it is. */
  lemma LumosCommands()
    ensures forall lumos :: NextLumos(lumos, Some("on")) && !NextLumos(lumos, Some("off"))
    ensures IgnoresOthers(NextLumos) && Idempotent(NextLumos)
  {
  }

  /** After any commands, `lumos` is set exactly when the last decisive one was "on". */
  lemma LumosAfterLastDecisive(lumos: bool, commands: seq<Command>, k: nat)
    requires k < |commands| && IsDecisive(commands[k])
    requires forall i :: k < i < |commands| ==> !IsDecisive(commands[i])
    ensures Run(NextLumos, lumos, commands) <==> commands[k] == Some("on")
  {
    LumosCommands();
    RunLastDecisive(NextLumos, lumos, commands, k);
  }

  /** `[on, null, off, null, on]` from either start gives `[T, T, F, F, T]`. */
  lemma LumosTraceExample(lumos: bool)
    ensures Trace(NextLumos, lumos, [Some("on"), None, Some("off"), None, Some("on")])
         == [true, true, false, false, true]
  {
  }

  /** "on" gives the person view the active colours, "off" the idle ones, its
      text is never touched, and every other command leaves it as it is. */
  lemma PersonViewCommands(v: TextView, c: Command)
    ensures NextPersonView(v, Some("on")) == TextView(v.text, ActiveBackground, ActiveText)
    ensures NextPersonView(v, Some("off")) == TextView(v.text, IdleBackground, IdleText)
    ensures !IsDecisive(c) ==> NextPersonView(v, c) == v
    ensures NextPersonView(NextPersonView(v, c), c) == NextPersonView(v, c)
  {
  }

  /** The commands never change what the person view says. */
  lemma {:induction false} PersonViewKeepsText(view: TextView, commands: seq<Command>)
    ensures Run(NextPersonView, view, commands).text == view.text
    decreases |commands|
  {
    if commands != [] {
      PersonViewKeepsText(NextPersonView(view, commands[0]), commands[1..]);
    }
  }

  /** The person view shows the active background exactly when detection is on. */
  ghost predicate CameraAgrees(lumos: bool, view: TextView)
  {
    view.background == ActiveBackground <==> lumos
  }

  /** Handling the same commands keeps the flag and the person view in agreement. */
  lemma {:induction false} CameraAgreementKept(lumos: bool, view: TextView, commands: seq<Command>)
    requires CameraAgrees(lumos, view)
    ensures CameraAgrees(Run(NextLumos, lumos, commands), Run(NextPersonView, view, commands))
    decreases |commands|
  {
    if commands != [] {
      CameraAgreementKept(NextLumos(lumos, commands[0]), NextPersonView(view, commands[0]), commands[1..]);
    }
  }

  // ---------------------------------------------------------------------------
  // The audio screen

  /** "on" shows "Lumos ON" in the active colours, "off" shows "Lumos OFF" in
      the idle ones, whatever was shown before; other commands change nothing. */
  lemma StatusViewCommands()
    ensures forall v :: NextStatusView(v, Some("on")) == TextView("Lumos ON", ActiveBackground, ActiveText)
    ensures forall v :: NextStatusView(v, Some("off")) == TextView("Lumos OFF", IdleBackground, IdleText)
    ensures IgnoresOthers(NextStatusView) && Idempotent(NextStatusView)
  {
  }

  /** After any commands with a decisive one among them, the status view is the
      one the last decisive command sets, whatever it showed at the start. */
  lemma StatusAfterLastDecisive(view: TextView, commands: seq<Command>, k: nat)
    requires k < |commands| && IsDecisive(commands[k])
    requires forall i :: k < i < |commands| ==> !IsDecisive(commands[i])
    ensures Run(NextStatusView, view, commands)
         == if commands[k] == Some("on") then TextView("Lumos ON", ActiveBackground, ActiveText)
            else TextView("Lumos OFF", IdleBackground, IdleText)
  {
    StatusViewCommands();
    RunLastDecisive(NextStatusView, view, commands, k);
  }

  /** Given the same commands, once one of them was "on" or "off" the audio
      screen says "Lumos ON" exactly when the camera screen's detection is on. */
  lemma ScreensAgree(lumos: bool, view: TextView, commands: seq<Command>, k: nat)
    requires k < |commands| && IsDecisive(commands[k])
    ensures Run(NextStatusView, view, commands).text == "Lumos ON" <==> Run(NextLumos, lumos, commands)
  {
    var last := LastDecisive(commands, k);
    LumosAfterLastDecisive(lumos, commands, last);
    StatusAfterLastDecisive(view, commands, last);
  }

  /** The position of the last "on" or "off", given one at `k`. */
  function LastDecisive(commands: seq<Command>, k: nat): (last: nat)
    requires k < |commands| && IsDecisive(commands[k])
    ensures k <= last < |commands| && IsDecisive(commands[last])
    ensures forall i :: last < i < |commands| ==> !IsDecisive(commands[i])
    decreases |commands| - k
  {
    if exists i :: k < i < |commands| && IsDecisive(commands[i]) then
      var i :| k < i < |commands| && IsDecisive(commands[i]);
      LastDecisive(commands, i)
    else k
  }
}
