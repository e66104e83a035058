/**
 Two stateful classes, one writing down what a device was made to do, one acting the writing out: they undo
 each other, and here is exactly when.
 */
module Tape {
  import opened Numbers
  import opened Text

  /** A selector argument: a string, or a list of them. */
  datatype Arg = One(text: string) | Many(texts: seq<string>)

  datatype Action =
    | Click(x: int, y: int)
    | Press(key: string)
    | Swipe(fx: int, fy: int, tx: int, ty: int)
    | Tap(selector: map<string, Arg>, index: Option<int>)
    | Type(selector: map<string, Arg>, index: Option<int>)
    | Start

  /** One step of a tape: the actions since the step before, the screen they led to, and what was read on it. */
  datatype Step = Step(screen: nat, after: seq<Action>, clipboard: Option<Option<string>>, package: Option<string>)

  const STALE_SECONDS: int := 1
  const NEAR: int := 120

  /** The actions of steps `from` on, in order. */
  function Acts(tape: seq<Step>, from: nat): seq<Action>
    decreases |tape| - from
  {
    if from >= |tape| then [] else tape[from].after + Acts(tape, from + 1)
  }

  lemma {:induction false} ActsAppend(tape: seq<Step>, s: Step, from: nat)
    requires from <= |tape|
    ensures Acts(tape + [s], from) == Acts(tape, from) + s.after
    decreases |tape| - from
  {
    if from == |tape| {
      assert Acts(tape + [s], from + 1) == [];
    } else {
      ActsAppend(tape, s, from + 1);
    }
  }

  /** Rewriting what was read on a step leaves the actions alone. */
  lemma {:induction false} ActsSame(tape: seq<Step>, other: seq<Step>, from: nat)
    requires |tape| == |other| && forall i | 0 <= i < |tape| :: tape[i].after == other[i].after
    ensures Acts(tape, from) == Acts(other, from)
    decreases |tape| - from
  {
    if from < |tape| {
      ActsSame(tape, other, from + 1);
    }
  }

  // ---------------------------------------------------------------------------------------------
  // Recording

  predicate HasLink(clipboard: Option<string>) {
    clipboard.Some? && clipboard.value != ""
  }

  /** A step's note once the clipboard has been read on it as `text`: a link gives way to another link only. */
  function NoteOf(was: Option<Option<string>>, text: Option<string>): Option<Option<string>> {
    if TakesNote(was, text) then Some(text) else was
  }

  predicate TakesNote(was: Option<Option<string>>, text: Option<string>) {
    HasLink(text) || !(was.Some? && HasLink(was.value))
  }

  /** The three cases there are: a link is noted; anything else is, where there is no link; a link stays. */
  lemma {:induction false} WhatIsNoted(was: Option<Option<string>>, text: Option<string>)
    ensures text.Some? && |text.value| > 0 ==> NoteOf(was, text) == Some(text)
    ensures was.None? || was.value.None? || |was.value.value| == 0 ==> NoteOf(was, text) == Some(text)
    ensures was.Some? && was.value.Some? && |was.value.value| > 0 && (text.None? || |text.value| == 0) ==>
              NoteOf(was, text) == was
  {
  }

  /** The last step with the clipboard read on it, the others as they were. */
  function Noted(steps: seq<Step>, text: Option<string>): seq<Step> {
    if steps == [] then []
    else
      var front := |steps| - 1;
      steps[front := steps[front].(clipboard := NoteOf(steps[front].clipboard, text))]
  }

  /** The recording side. What the real device and the clock gave a call, and whether a write to disk succeeded,
      are its arguments. */
  class Recorder {
    var steps: seq<Step>
    var pending: seq<Action>
    var lastXml: Option<string>
    var seenAt: int
    var failed: bool
    var disk: Option<seq<Step>>         // what the tape file holds
    var screens: map<nat, string>       // the hierarchies written, by number
    ghost var log: seq<Action>          // every action made
    ghost var early: seq<Action>        // those made before the first look at the screen

    ghost predicate Valid()
      reads this
    {
      && log == Acts(steps, 0) + pending
      && (forall i | 0 <= i < |steps| :: steps[i].screen == i)
      && (!failed && steps != [] ==> disk == Some(steps) && forall i: nat | i < |steps| :: i in screens)
      && (lastXml.None? ==> steps == []) && (lastXml.Some? && !failed ==> steps != [])
      && early == (if steps == [] then pending else steps[0].after)
    }

    /** A look at the screen that is worth writing down. */
    ghost predicate Adds(xml: string)
      reads this
    {
      !failed && (pending != [] || lastXml != Some(xml))
    }

    /** A look that goes as far as comparing screens. */
    ghost predicate Looks(now: int)
      reads this
    {
      pending != [] || lastXml.None? || now - seenAt > STALE_SECONDS
    }

    constructor ()
      ensures Valid() && log == [] && early == [] && steps == [] && pending == [] && !failed && disk.None?
      ensures lastXml.None?
    {
      steps, pending, lastXml, seenAt, failed := [], [], None, 0, false;
      disk, screens, log, early := None, map[], [], [];
    }

    /** Puts everything on disk, one step's screen with it if given. After one write has failed none is tried
        again; `left` is what the file holds then. */
    method Write(screen: Option<(nat, string)>, ok: bool, left: Option<seq<Step>>)
      modifies this`disk, this`screens, this`failed
      ensures failed == (old(failed) || !ok)
      ensures !failed ==>
                disk == Some(steps)
                && screens == if screen.Some? then old(screens)[screen.value.0 := screen.value.1] else old(screens)
      ensures old(failed) ==> disk == old(disk) && screens == old(screens)
    {
      if failed {
        return;
      }
      if !ok {
        failed, disk := true, left;
        return;
      }
      if screen.Some? {
        screens := screens[screen.value.0 := screen.value.1];
      }
      disk := Some(steps);
    }

    /** The screen in front becomes a step if it is new or something led to it; the pending actions go with it. */
    method SaveStep(xml: string, now: int, ok: bool, left: Option<seq<Step>>)
      requires Valid()
      modifies this
      ensures Valid() && log == old(log) && lastXml == Some(xml) && seenAt == now
      ensures early == old(early)
      ensures !old(Adds(xml)) ==>
                steps == old(steps) && pending == old(pending) && failed == old(failed)
      ensures old(Adds(xml)) ==>
                pending == [] && failed == !ok
                && steps == old(steps) + [Step(|old(steps)|, old(pending), None, None)]
    {
      seenAt := now;
      if Some(xml) == lastXml && pending == [] {
        return;
      }
      lastXml := Some(xml);
      if failed {
        return;
      }
      var name := |steps|;
      var s := Step(name, pending, None, None);
      ActsAppend(steps, s, 0);
      steps := steps + [s];
      pending := [];
      Write(Some((name, xml)), ok, left);
    }

    /** What comes before any reading of the screen but a dump: a step is added exactly if the last look is not
        recent or actions are pending, and the screen is new or they led to it. */
    method Look(xml: string, now: int, ok: bool, left: Option<seq<Step>>)
      requires Valid()
      modifies this
      ensures Valid() && log == old(log) && early == old(early)
      ensures old(Looks(now)) && old(Adds(xml)) ==>
                pending == [] && failed == !ok
                && steps == old(steps) + [Step(|old(steps)|, old(pending), None, None)]
      ensures !old(Looks(now) && Adds(xml)) ==>
                steps == old(steps) && pending == old(pending) && failed == old(failed)
      ensures lastXml == if old(Looks(now)) then Some(xml) else old(lastXml)
      ensures seenAt == if old(Looks(now)) then now else old(seenAt)
      ensures !old(failed) ==> pending == [] && steps != []
    {
      if pending != [] || lastXml.None? || now - seenAt > STALE_SECONDS {
        SaveStep(xml, now, ok, left);
      }
    }

    method Did(action: Action)
      requires Valid()
      modifies this`pending, this`log, this`early
      ensures Valid() && log == old(log) + [action] && pending == old(pending) + [action]
      ensures early == if steps == [] then old(early) + [action] else old(early)
    {
      pending := pending + [action];
      early := if steps == [] then pending else early;
      log := log + [action];
      assert Acts(steps, 0) + (old(pending) + [action]) == Acts(steps, 0) + old(pending) + [action];
    }

    /** What the clipboard reads as is noted on the step in front, except over a link with something else. */
    method ReadClipboard(text: Option<string>, xml: string, now: int, ok: bool, ok2: bool, left: Option<seq<Step>>)
      requires Valid()
      modifies this
      ensures Valid() && log == old(log) && early == old(early)
      ensures var added := old(Looks(now) && Adds(xml));
              var looked := if added then old(steps) + [Step(|old(steps)|, old(pending), None, None)] else old(steps);
              && steps == Noted(looked, text) && pending == (if added then [] else old(pending))
              && failed == (old(failed) || (added && !ok)
                            || (looked != [] && TakesNote(looked[|looked| - 1].clipboard, text) && !ok2))
    {
      Look(xml, now, ok, left);
      if steps != [] {
        var front := steps[|steps| - 1];
        if TakesNote(front.clipboard, text) {
          var was := steps;
          steps := steps[|steps| - 1 := front.(clipboard := Some(text))];
          ActsSame(was, steps, 0);
          Write(None, ok2, left);
        }
      }
    }
  }

  // ---------------------------------------------------------------------------------------------
  // Playing back

  /** An action as it is read back from the file: a selector argument that is a list is dropped. */
  function Reload(a: Action): Action {
    match a
    case Tap(selector, index) => Tap(Strings(selector), index)
    case Type(selector, index) => Type(Strings(selector), index)
    case _ => a
  }

  function Strings(selector: map<string, Arg>): map<string, Arg> {
    map k | k in selector && selector[k].One? :: selector[k]
  }

  function ReloadAll(actions: seq<Action>): (r: seq<Action>)
    ensures |r| == |actions| && forall i | 0 <= i < |actions| :: r[i] == Reload(actions[i])
  {
    seq(|actions|, i requires 0 <= i < |actions| => Reload(actions[i]))
  }

  function LoadTape(disk: seq<Step>): (t: seq<Step>)
    ensures |t| == |disk| && forall i | 0 <= i < |disk| :: t[i] == disk[i].(after := ReloadAll(disk[i].after))
  {
    seq(|disk|, i requires 0 <= i < |disk| => disk[i].(after := ReloadAll(disk[i].after)))
  }

  datatype Direction = Left | Right | Up | Down

  function DirectionOf(a: Action): Direction
    requires a.Swipe?
  {
    if Abs(a.tx - a.fx) > Abs(a.ty - a.fy) then (if a.tx < a.fx then Left else Right)
    else if a.ty < a.fy then Up else Down
  }

  /** An action in replay passes for a taped one: near enough a click, the same way for a swipe, else alike. */
  predicate SameAction(done: Action, taped: Action) {
    match done
    case Click(x, y) => taped.Click? && Abs(x - taped.x) <= NEAR && Abs(y - taped.y) <= NEAR
    case Press(key) => taped.Press? && key == taped.key
    case Swipe(_, _, _, _) => taped.Swipe? && DirectionOf(done) == DirectionOf(taped)
    case Tap(selector, index) => taped.Tap? && selector == taped.selector && index == taped.index
    case Type(selector, index) => taped.Type? && selector == taped.selector && index == taped.index
    case Start => taped.Start?
  }

  /** A swipe goes more sideways than up or down. */
  predicate IsSideways(a: Action)
    requires a.Swipe?
  {
    var w, h := a.tx - a.fx, a.ty - a.fy;
    -w < h < w || w < h < -w
  }

  /** Two swipes have one dominant direction: both sideways to the same side, or both not and the same way. */
  predicate GoTheSameWay(a: Action, b: Action)
    requires a.Swipe? && b.Swipe?
  {
    if IsSideways(a) then IsSideways(b) && (a.tx < a.fx <==> b.tx < b.fx)
    else !IsSideways(b) && (a.ty < a.fy <==> b.ty < b.fy)
  }

  /**
   What a replay tells apart, kind by kind: with an action awaited, another is no divergence exactly if it is a click
   within 120 pixels either way of that click, a swipe the same way as that swipe, or that very key press, tap, text
   entry or start.
   */
  lemma {:induction false} ToldApart(tape: seq<Step>, r: Replay, a: Action)
    requires Placed(tape, r) && Target(tape, r.step + 1).Some?
    ensures var awaited := tape[Target(tape, r.step + 1).value].after[r.done];
            DidOn(tape, r, a).divergences ==
              r.divergences
              + if match a
                   case Click(x, y) =>
                     awaited.Click? && -120 <= x - awaited.x <= 120 && -120 <= y - awaited.y <= 120
                   case Swipe(_, _, _, _) => awaited.Swipe? && GoTheSameWay(a, awaited)
                   case _ => a == awaited
                then [] else [(r.step, a)]
  {
    hide Target;
  }

  /** An action's selector has no list in it. */
  predicate Plain(a: Action) {
    (a.Tap? || a.Type?) ==> forall k | k in a.selector :: a.selector[k].One?
  }

  /** An action is recognised as itself after a trip through the file exactly if its selector is plain. */
  lemma {:induction false} ReloadRecognised(a: Action)
    ensures SameAction(a, Reload(a)) <==> Plain(a)
  {
    if a.Tap? || a.Type? {
      if Plain(a) {
        assert Strings(a.selector) == a.selector;
      } else {
        var k :| k in a.selector && !a.selector[k].One?;
        assert k !in Strings(a.selector);
      }
    }
  }

  /** The next step an action leads to. */
  function Target(tape: seq<Step>, from: nat): (t: Option<nat>)
    ensures t.Some? ==> from <= t.value < |tape| && tape[t.value].after != []
    ensures t.Some? ==> forall i | from <= i < t.value :: tape[i].after == []
    ensures t.None? ==> forall i | from <= i < |tape| :: tape[i].after == []
    decreases |tape| - from
  {
    if from >= |tape| then None
    else if tape[from].after != [] then Some(from)
    else Target(tape, from + 1)
  }

  /** Where a replay has got to, and what went wrong. */
  datatype Replay = Replay(step: nat, done: nat, divergences: seq<(nat, Action)>, pastEnd: seq<Action>)

  predicate Placed(tape: seq<Step>, r: Replay) {
    && r.step < |tape|
    && match Target(tape, r.step + 1)
       case None => r.done == 0
       case Some(t) => r.done < |tape[t].after|
  }

  function TickOn(tape: seq<Step>, r: Replay): Replay
    requires Placed(tape, r)
  {
    if r.done > 0 || r.step + 1 >= |tape| || tape[r.step + 1].after != [] then r else r.(step := r.step + 1, done := 0)
  }

  function DidOn(tape: seq<Step>, r: Replay, a: Action): Replay
    requires Placed(tape, r)
  {
    match Target(tape, r.step + 1)
    case None => r.(pastEnd := r.pastEnd + [a])
    case Some(t) =>
      if !SameAction(a, tape[t].after[r.done]) then r.(divergences := r.divergences + [(r.step, a)])
      else if r.done + 1 == |tape[t].after| then r.(step := t, done := 0)
      else r.(done := r.done + 1)
  }

  /** The tape played back, one action or pause at a time. */
  class ReplayDevice {
    const tape: seq<Step>
    var step: nat
    var done: nat
    var divergences: seq<(nat, Action)>
    var pastEnd: seq<Action>
    var clipboard: Option<string>

    ghost function Now(): Replay
      reads this
    {
      Replay(step, done, divergences, pastEnd)
    }

    constructor (disk: seq<Step>)
      requires disk != []
      ensures tape == LoadTape(disk) && Now() == Replay(0, 0, [], []) && Placed(tape, Now()) && HearsTheNote()
    {
      tape := LoadTape(disk);
      step, done, divergences, pastEnd, clipboard := 0, 0, [], [], Some("");
    }

    /** Moves to a step; its clipboard note, if any, is what the clipboard holds from then on. */
    method Enter(next: nat)
      requires next < |tape|
      modifies this`step, this`done, this`clipboard
      ensures step == next && done == 0
      ensures clipboard == if tape[next].clipboard.Some? then tape[next].clipboard.value else old(clipboard)
    {
      step, done := next, 0;
      if tape[next].clipboard.Some? {
        clipboard := tape[next].clipboard.value;
      }
    }

    /** A pause: the next screen comes by itself unless an action leads to it. */
    method Tick() returns (moved: bool)
      requires Placed(tape, Now())
      modifies this
      ensures Now() == TickOn(tape, old(Now())) && Placed(tape, Now())
      ensures clipboard == Heard(tape, old(step), step, old(clipboard))
      ensures moved <==> step != old(step)
    {
      var following := step + 1;
      if done > 0 || following >= |tape| || tape[following].after != [] {
        return false;
      }
      Enter(following);
      return true;
    }

    /** An action made: a step is reached with the last of its actions, and a wrong one is noted and waited out. */
    method Did(action: Action)
      requires Placed(tape, Now())
      modifies this
      ensures Now() == DidOn(tape, old(Now()), action) && Placed(tape, Now())
      ensures clipboard == Heard(tape, old(step), step, old(clipboard))
    {
      var target := Target(tape, step + 1);
      if target.None? {
        pastEnd := pastEnd + [action];
        return;
      }
      if !SameAction(action, tape[target.value].after[done]) {
        divergences := divergences + [(step, action)];
        return;
      }
      done := done + 1;
      if done == |tape[target.value].after| {
        Enter(target.value);
      }
    }

    /** On a step come to, with something noted, the clipboard is what was noted. The first step is not come to:
        the clipboard is empty there. */
    ghost predicate HearsTheNote()
      reads this
    {
      && step < |tape|
      && if step == 0 then clipboard == Some("")
         else tape[step].clipboard.Some? ==> clipboard == tape[step].clipboard.value
    }

    /** A run of actions and pauses. */
    method PlayBack(inputs: seq<Input>)
      requires Placed(tape, Now())
      modifies this
      ensures Now() == Play(tape, old(Now()), inputs) && Placed(tape, Now())
      ensures old(HearsTheNote()) ==> HearsTheNote()
    {
      ghost var made := Play(tape, Now(), inputs);
      hide Play, Placed, TickOn, DidOn;
      assert inputs[0..] == inputs;
      for i := 0 to |inputs|
        invariant Placed(tape, Now()) && made == Play(tape, Now(), inputs[i..])
        invariant old(HearsTheNote()) ==> HearsTheNote()
      {
        OneMoreInput(tape, Now(), inputs[i..]);
        assert inputs[i..][1..] == inputs[i + 1..];
        match inputs[i]
        case Pause => var _ := Tick();
        case Do(action) => Did(action);
      }
      NothingMore(tape, Now());
      assert inputs[|inputs|..] == [];
    }
  }

  /** The clipboard after going from one step to another: what was noted there, if that is another step. */
  function Heard(tape: seq<Step>, from: nat, to: nat, was: Option<string>): Option<string>
    requires to < |tape|
  {
    if to != from && tape[to].clipboard.Some? then tape[to].clipboard.value else was
  }

  // ---------------------------------------------------------------------------------------------
  // The two together

  datatype Input = Pause | Do(action: Action)

  function Actions(inputs: seq<Input>): seq<Action> {
    if inputs == [] then []
    else (if inputs[0].Do? then [inputs[0].action] else []) + Actions(inputs[1..])
  }

  /** What the tape still waits for. */
  ghost function Awaited(tape: seq<Step>, r: Replay): seq<Action>
    requires Placed(tape, r)
  {
    PlacedInside(tape, r);
    Acts(tape, r.step + 1)[r.done..]
  }

  lemma {:induction false} ActsFromTarget(tape: seq<Step>, from: nat)
    ensures Acts(tape, from) == match Target(tape, from)
                                case None => []
                                case Some(t) => tape[t].after + Acts(tape, t + 1)
    decreases |tape| - from
  {
    if from < |tape| && tape[from].after == [] {
      ActsFromTarget(tape, from + 1);
      assert Target(tape, from) == Target(tape, from + 1);
      assert Acts(tape, from) == [] + Acts(tape, from + 1);
    } else if from < |tape| {
      assert Target(tape, from) == Some(from);
    }
  }

  lemma {:induction false} PlacedInside(tape: seq<Step>, r: Replay)
    requires Placed(tape, r)
    ensures r.done <= |Acts(tape, r.step + 1)|
  {
    ActsFromTarget(tape, r.step + 1);
  }

  lemma {:induction false} TickAwaitsTheSame(tape: seq<Step>, r: Replay)
    requires Placed(tape, r)
    ensures var s := TickOn(tape, r);
            Placed(tape, s) && Awaited(tape, s) == Awaited(tape, r)
            && s.divergences == r.divergences && s.pastEnd == r.pastEnd
  {
    if TickOn(tape, r) != r {
      assert Acts(tape, r.step + 1) == Acts(tape, r.step + 2);
      assert Target(tape, r.step + 1) == Target(tape, r.step + 2);
    }
  }

  /** What is awaited is the rest of the target's actions, and then the later steps'. */
  lemma {:induction false} AwaitedIs(tape: seq<Step>, r: Replay)
    requires Placed(tape, r)
    ensures Awaited(tape, r) == match Target(tape, r.step + 1)
                                case None => []
                                case Some(t) => tape[t].after[r.done..] + Acts(tape, t + 1)
  {
    ActsFromTarget(tape, r.step + 1);
    hide Acts, Target;
  }

  lemma {:induction false} DidConsumesOne(tape: seq<Step>, r: Replay, a: Action)
    requires Placed(tape, r)
    ensures var s, waiting := DidOn(tape, r, a), Awaited(tape, r);
            && Placed(tape, s)
            && if waiting == [] then s == r.(pastEnd := r.pastEnd + [a]) && Awaited(tape, s) == []
               else if SameAction(a, waiting[0]) then
                 Awaited(tape, s) == waiting[1..] && s.divergences == r.divergences && s.pastEnd == r.pastEnd
               else s == r.(divergences := r.divergences + [(r.step, a)])
  {
    hide SameAction, Awaited, Acts;
    AwaitedIs(tape, r);
    var target := Target(tape, r.step + 1);
    if target.Some? {
      var t := target.value;
      var s := DidOn(tape, r, a);
      if SameAction(a, tape[t].after[r.done]) {
        if s.step == t {
          EnteredIsPlaced(tape, t, r);
          EnteredAwaits(tape, s);
        } else {
          AwaitedIs(tape, s);
        }
      }
    } else {
      AwaitedIs(tape, r.(pastEnd := r.pastEnd + [a]));
    }
  }

  lemma {:induction false} EnteredAwaits(tape: seq<Step>, r: Replay)
    requires Placed(tape, r) && r.done == 0
    ensures Awaited(tape, r) == Acts(tape, r.step + 1)
  {
  }

  lemma {:induction false} EnteredIsPlaced(tape: seq<Step>, t: nat, r: Replay)
    requires t < |tape|
    ensures Placed(tape, r.(step := t, done := 0))
  {
  }

  function Play(tape: seq<Step>, r: Replay, inputs: seq<Input>): Replay
    requires Placed(tape, r)
    decreases |inputs|
  {
    if inputs == [] then r
    else
      match inputs[0]
      case Pause => TickAwaitsTheSame(tape, r); Play(tape, TickOn(tape, r), inputs[1..])
      case Do(a) => DidConsumesOne(tape, r, a); Play(tape, DidOn(tape, r, a), inputs[1..])
  }

  /** Whether the actions made are, one by one, those waited for, as far as both go. */
  predicate Follows(made: seq<Action>, waiting: seq<Action>) {
    made == [] || waiting == [] || (SameAction(made[0], waiting[0]) && Follows(made[1..], waiting[1..]))
  }

  lemma {:induction false} DivergencesStay(tape: seq<Step>, r: Replay, inputs: seq<Input>)
    requires Placed(tape, r)
    ensures r.divergences <= Play(tape, r, inputs).divergences
    decreases |inputs|
  {
    if inputs != [] {
      match inputs[0]
      case Pause => TickAwaitsTheSame(tape, r); DivergencesStay(tape, TickOn(tape, r), inputs[1..]);
      case Do(a) => DidConsumesOne(tape, r, a); DivergencesStay(tape, DidOn(tape, r, a), inputs[1..]);
    }
  }

  /** Replay `f`, with `left` still awaited, is what `made` makes of replay `r` awaiting `waiting`. */
  ghost predicate Ended(r: Replay, f: Replay, left: seq<Action>, made: seq<Action>, waiting: seq<Action>) {
    && (f.divergences == r.divergences <==> Follows(made, waiting))
    && (f.divergences == r.divergences ==>
          && f.pastEnd == r.pastEnd + (if |made| <= |waiting| then [] else made[|waiting|..])
          && left == if |made| <= |waiting| then waiting[|made|..] else [])
  }

  lemma {:induction false} OneMoreEnded(r: Replay, s: Replay, f: Replay, left: seq<Action>, a: Action,
                                        made: seq<Action>, waiting: seq<Action>, next: seq<Action>)
    requires s.divergences <= f.divergences && Ended(s, f, left, made, next)
    requires if waiting == [] then s == r.(pastEnd := r.pastEnd + [a]) && next == []
             else if SameAction(a, waiting[0]) then
               next == waiting[1..] && s.divergences == r.divergences && s.pastEnd == r.pastEnd
             else s == r.(divergences := r.divergences + [(r.step, a)])
    ensures Ended(r, f, left, [a] + made, waiting)
  {
    hide SameAction;
    var all := [a] + made;
    assert all[1..] == made;
    if waiting == [] {
      assert r.pastEnd + [a] + made == r.pastEnd + all;
    } else if SameAction(a, waiting[0]) {
      assert |all| > |waiting| ==> all[|waiting|..] == made[|next|..];
      assert |all| <= |waiting| ==> waiting[|all|..] == next[|made|..];
    } else {
      assert |f.divergences| > |r.divergences|;
    }
  }

  /**
   A replay diverges nowhere exactly when its actions follow the tape, pauses anywhere; it has then consumed
   them one by one, and only those past the tape's end are left over.
   */
  lemma {:induction false} PlayFollows(tape: seq<Step>, r: Replay, inputs: seq<Input>)
    requires Placed(tape, r)
    ensures Placed(tape, Play(tape, r, inputs))
    ensures Ended(r, Play(tape, r, inputs), Awaited(tape, Play(tape, r, inputs)), Actions(inputs), Awaited(tape, r))
    decreases |inputs|
  {
    if inputs != [] {
      if inputs[0].Pause? {
        hide SameAction, Placed, TickOn, Awaited, Ended;
        TickAwaitsTheSame(tape, r);
        PlayFollows(tape, TickOn(tape, r), inputs[1..]);
        assert Actions(inputs) == Actions(inputs[1..]);
        PausesDontMatter(r, TickOn(tape, r));
      } else {
        hide SameAction, Placed, DidOn, Awaited, Ended;
        var a := inputs[0].action;
        var s := DidOn(tape, r, a);
        DidConsumesOne(tape, r, a);
        PlayFollows(tape, s, inputs[1..]);
        DivergencesStay(tape, s, inputs[1..]);
        var f := Play(tape, s, inputs[1..]);
        OneMoreEnded(r, s, f, Awaited(tape, f), a, Actions(inputs[1..]), Awaited(tape, r), Awaited(tape, s));
      }
    }
  }

  lemma {:induction false} PausesDontMatter(r: Replay, s: Replay)
    requires s.divergences == r.divergences && s.pastEnd == r.pastEnd
    ensures forall f, left, made, waiting | Ended(s, f, left, made, waiting) :: Ended(r, f, left, made, waiting)
  {
  }

  /** An acted-on step is in front exactly once its last action has been made: entered then, no sooner. */
  lemma {:induction false} EntersWithItsLastAction(tape: seq<Step>, r: Replay, i: nat)
    requires Placed(tape, r) && i < |tape| && tape[i].after != []
    ensures i <= r.step <==> |Awaited(tape, r)| <= |Acts(tape, i + 1)|
  {
    hide Acts, Awaited, Target;
    AwaitedIs(tape, r);
    if i <= r.step {
      PassedIsDone(tape, r, i);
    } else {
      var t := Target(tape, r.step + 1).value;
      assert t <= i && r.done < |tape[t].after|;
      ActsShrink(tape, t + 1, i + 1);
    }
  }

  lemma {:induction false} PassedIsDone(tape: seq<Step>, r: Replay, i: nat)
    requires Placed(tape, r) && i <= r.step
    ensures |Awaited(tape, r)| <= |Acts(tape, i + 1)|
  {
    PlacedInside(tape, r);
    ActsShrink(tape, i + 1, r.step + 1);
    hide Target;
  }

  lemma {:induction false} ActsShrink(tape: seq<Step>, i: nat, j: nat)
    requires i <= j
    ensures |Acts(tape, j)| <= |Acts(tape, i)|
    decreases j - i
  {
    if i < j && i < |tape| {
      ActsShrink(tape, i + 1, j);
    }
  }

  lemma {:induction false} LoadedActs(disk: seq<Step>, from: nat)
    ensures Acts(LoadTape(disk), from) == ReloadAll(Acts(disk, from))
    decreases |disk| - from
  {
    if from < |disk| {
      LoadedActs(disk, from + 1);
    }
  }

  lemma {:induction false} FollowsItself(recorded: seq<Action>, rest: seq<Action>)
    ensures Follows(recorded + rest, ReloadAll(recorded)) <==> forall a | a in recorded :: Plain(a)
  {
    if recorded != [] {
      ReloadRecognised(recorded[0]);
      FollowsItself(recorded[1..], rest);
      assert (recorded + rest)[1..] == recorded[1..] + rest;
      assert ReloadAll(recorded)[1..] == ReloadAll(recorded[1..]);
      assert recorded == [recorded[0]] + recorded[1..];
      hide SameAction, Plain, Reload;
    }
  }

  /**
   Playing a recording's own log back on its tape, pauses anywhere, gives no divergence and leaves over just
   the actions that no step recorded, exactly when the session began with a look at the screen and no
   recorded action was on a selector with a list in it (a list is lost on the way through the file).
   */
  lemma {:induction false} ReplayUndoesRecording(steps: seq<Step>, pending: seq<Action>, inputs: seq<Input>)
    requires steps != [] && Actions(inputs) == Acts(steps, 0) + pending
    ensures var start := Replay(0, 0, [], []);
            Placed(LoadTape(steps), start)
            && (var f := Play(LoadTape(steps), start, inputs);
                f.divergences == [] && f.pastEnd == pending
                <==> steps[0].after == [] && forall a | a in Acts(steps, 0) :: Plain(a))
  {
    var tape, start := LoadTape(steps), Replay(0, 0, [], []);
    var waiting := Acts(steps, 1);
    StartAwaits(steps);
    hide Play, SameAction, Plain, Follows, Placed, Awaited, LoadTape;
    PlayFollows(tape, start, inputs);
    if steps[0].after == [] {
      assert Acts(steps, 0) == waiting;
      FollowsItself(waiting, pending);
      assert (waiting + pending)[|waiting|..] == pending;
    } else {
      assert |Acts(steps, 0)| == |steps[0].after| + |waiting|;
    }
  }

  /** A replay starts out waiting for everything after the first step. */
  lemma {:induction false} StartAwaits(steps: seq<Step>)
    requires steps != []
    ensures Placed(LoadTape(steps), Replay(0, 0, [], []))
    ensures Awaited(LoadTape(steps), Replay(0, 0, [], [])) == ReloadAll(Acts(steps, 1))
    ensures steps[0].after == [] ==> Acts(steps, 0) == Acts(steps, 1)
  {
    LoadedActs(steps, 1);
  }

  /**
   A session that begins with a look replays without divergence under any log equivalent to the recorded one,
   action by action; the tape is used up, and only the unrecorded tail is left over.
   */
  lemma {:induction false} EquivalentLogReplays(steps: seq<Step>, inputs: seq<Input>)
    requires steps != [] && steps[0].after == []
    requires |Acts(steps, 0)| <= |Actions(inputs)|
    requires Follows(Actions(inputs), ReloadAll(Acts(steps, 0)))
    ensures var tape, start := LoadTape(steps), Replay(0, 0, [], []);
            Placed(tape, start)
            && (var f := Play(tape, start, inputs);
                && f.divergences == [] && f.pastEnd == Actions(inputs)[|Acts(steps, 0)|..]
                && Placed(tape, f) && Awaited(tape, f) == [])
  {
    var tape, start := LoadTape(steps), Replay(0, 0, [], []);
    StartAwaits(steps);
    hide Play, Follows, Placed, Awaited, LoadTape, Acts;
    PlayFollows(tape, start, inputs);
  }

  /**
   A session replayed from what it left on disk: no divergence, and only the actions no step recorded left
   over, exactly when nothing was done before the first look and no recorded selector had a list in it. However
   that turns out, the clipboard is as noted on the step it ends at, exactly when that is not the first or nothing
   was in the clipboard there.
   */
  method ReplaySession(session: Recorder, inputs: seq<Input>) returns (device: ReplayDevice)
    requires session.Valid() && !session.failed && session.steps != []
    requires Actions(inputs) == session.log
    ensures fresh(device) && device.tape == LoadTape(session.steps)
    ensures device.divergences == [] && device.pastEnd == session.pending <==>
            session.early == [] && forall a | a in Acts(session.steps, 0) :: Plain(a)
    ensures device.step < |session.steps|
    ensures var note := session.steps[device.step].clipboard;
            note.Some? ==> (device.clipboard == note.value <==> device.step > 0 || note.value == Some(""))
  {
    device := new ReplayDevice(session.disk.value);
    ReplayUndoesRecording(session.steps, session.pending, inputs);
    hide Play, Placed;
    device.PlayBack(inputs);
  }

  lemma {:induction false} OneMoreInput(tape: seq<Step>, r: Replay, inputs: seq<Input>)
    requires Placed(tape, r) && inputs != []
    ensures var s := match inputs[0] case Pause => TickOn(tape, r) case Do(a) => DidOn(tape, r, a);
            Placed(tape, s) && Play(tape, r, inputs) == Play(tape, s, inputs[1..])
  {
    if inputs[0].Pause? {
      TickAwaitsTheSame(tape, r);
    } else {
      DidConsumesOne(tape, r, inputs[0].action);
    }
  }

  lemma {:induction false} NothingMore(tape: seq<Step>, r: Replay)
    requires Placed(tape, r)
    ensures Play(tape, r, []) == r
  {
  }

  /** A session whose replay goes wrong: a look, text entered by a selector with a list in it, another look. */
  method TextEntryThatDiverges() returns (session: Recorder, device: ReplayDevice)
    ensures session.log == [Type(map["className" := Many(["EditText"])], None)]
    ensures session.early == [] && session.pending == [] && !session.failed
    ensures device.divergences == [(0, session.log[0])]
  {
    var typed := Type(map["className" := Many(["EditText"])], None);
    session := new Recorder();
    session.Look("search", 0, true, None);
    session.Did(typed);
    session.Look("results", 1, true, None);
    assert Acts(session.steps, 2) == [];
    var tape := session.steps;
    device := new ReplayDevice(session.steps);
    assert !Plain(typed) by {
      assert "className" in typed.selector;
    }
    ReloadRecognised(typed);
    assert device.tape[1].after == [Reload(typed)];
    device.Did(typed);
  }

  /** And another: a key pressed before the first look is in no later step's actions, and left over. */
  method EarlyActionIsLeftOver() returns (session: Recorder, device: ReplayDevice)
    ensures session.log == session.early == [Press("home")] && session.pending == [] && !session.failed
    ensures device.divergences == [] && device.pastEnd == [Press("home")]
  {
    session := new Recorder();
    session.Did(Press("home"));
    session.Look("feed", 0, true, None);
    device := new ReplayDevice(session.steps);
    device.Did(Press("home"));
  }

  /** A link read on the first screen is not in the clipboard of a replay of it. */
  method FirstNoteIsNotHeard() returns (session: Recorder, device: ReplayDevice)
    ensures session.log == [] && !session.failed && session.steps != []
    ensures session.steps[0].clipboard == Some(Some("link")) && device.tape == LoadTape(session.steps)
    ensures device.step == 0 && device.clipboard == Some("")
  {
    session := new Recorder();
    session.ReadClipboard(Some("link"), "feed", 0, true, true, None);
    device := new ReplayDevice(session.steps);
  }

  /** A tape of a look, a press of "back" and a look, played with another key. */
  method WrongKeyDiverges() returns (session: Recorder, device: ReplayDevice)
    ensures session.log == [Press("back")] && session.early == [] && session.pending == [] && !session.failed
    ensures device.divergences == [(0, Press("home"))] && device.step == 0
  {
    session := new Recorder();
    session.Look("post", 0, true, None);
    session.Did(Press("back"));
    session.Look("feed", 1, true, None);
    assert Acts(session.steps, 2) == [];
    device := new ReplayDevice(session.steps);
    assert device.tape[1].after == [Press("back")];
    ToldApart(device.tape, device.Now(), Press("home"));
    device.Did(Press("home"));
  }
}
