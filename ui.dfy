/** The UI button of src/ui.rs: a button is armed by a press and sends its
    signal when the pointer, still over it, releases it (the interaction goes
    from `Pressed` to `Hovered`). Moving off the button disarms it. */
module Ui {

  /** Rust's `u16`. */
  newtype u16 = x: int | 0 <= x < 0x1_0000

  /** The events buttons and pressure plates send to the level logic. */
  datatype Signal = NextLevel | RestartLevel | Custom(id: u16)

  /** Bevy's `Interaction` of a UI node; `Idle` is `Interaction::None`. */
  datatype Interaction = Pressed | Hovered | Idle

  /** Button border colours: `FrameGrey` is BUTTON_FRAME_COLOR (sRGB 0.7,
      0.7, 0.7), `FrameBlack` is BUTTON_FRAME_HOVER, `FrameWhite` is
      BUTTON_FRAME_PRESSED. */
  datatype FrameColor = FrameGrey | FrameBlack | FrameWhite

  /** What one changed interaction does to a button: its new armed flag, its
      new border, and whether it sends its signal. */
  datatype Reaction = Reaction(armed: bool, border: FrameColor, emits: bool)

  /** One arm of the `match` in `button_system`. */
  function React(armed: bool, i: Interaction): Reaction {
    match i
    case Pressed => Reaction(true, FrameWhite, false)
    case Hovered => Reaction(false, FrameBlack, armed)
    case Idle => Reaction(false, FrameGrey, false)
  }

  /** Pressing arms without sending; hovering sends exactly when armed and
      always disarms; leaving disarms without sending. */
  lemma ReactRule(armed: bool, i: Interaction)
    ensures React(armed, i).emits <==> armed && i == Hovered
    ensures React(armed, i).armed <==> i == Pressed
    ensures i == Pressed ==> React(armed, i).border == FrameWhite
    ensures i == Idle ==> React(armed, i).border == FrameGrey
  {
  }

  // ---------------------------------------------------------------------------
  // One button over many frames
  // ---------------------------------------------------------------------------

  /** The armed flag of a button and how many signals it has sent so far. */
  datatype Trace = Trace(armed: bool, sent: nat)

  /** A button that starts with flag `armed` and then sees the interaction
      changes `changes`, one per frame in which it changed. */
  function Run(armed: bool, changes: seq<Interaction>): Trace {
    if changes == [] then Trace(armed, 0)
    else
      var t := Run(armed, changes[..|changes| - 1]);
      var r := React(t.armed, changes[|changes| - 1]);
      Trace(r.armed, t.sent + (if r.emits then 1 else 0))
  }

  /** How many times `changes` goes from `Pressed` straight to `Hovered`; the first
      change counts as coming from `Pressed` when the button starts armed. */
  function PressHoverSteps(armed: bool, changes: seq<Interaction>): nat {
    if changes == [] then 0
    else
      var n := |changes| - 1;
      var fromPressed := if n == 0 then armed else changes[n - 1] == Pressed;
      PressHoverSteps(armed, changes[..n]) + (if changes[n] == Hovered && fromPressed then 1 else 0)
  }

  /** How many `Pressed` changes `changes` holds. */
  function Presses(changes: seq<Interaction>): nat {
    if changes == [] then 0
    else Presses(changes[..|changes| - 1]) + (if changes[|changes| - 1] == Pressed then 1 else 0)
  }

  /** The button is armed exactly when its last change was a press. */
  lemma {:induction false} ArmedIffLastPressed(armed: bool, changes: seq<Interaction>)
    ensures Run(armed, changes).armed <==> if changes == [] then armed else changes[|changes| - 1] == Pressed
  {
    if changes != [] {
      ArmedIffLastPressed(armed, changes[..|changes| - 1]);
    }
  }

  /** The signals a button sends are exactly its Pressed-to-Hovered steps. */
  lemma {:induction false} SentArePressHoverSteps(armed: bool, changes: seq<Interaction>)
    ensures Run(armed, changes).sent == PressHoverSteps(armed, changes)
  {
    if changes != [] {
      var n := |changes| - 1;
      SentArePressHoverSteps(armed, changes[..n]);
      ArmedIffLastPressed(armed, changes[..n]);
      if n > 0 {
        assert changes[..n][n - 1] == changes[n - 1];
      }
    }
  }

  /** A button sends at most once per press (plus once if it started armed). */
  lemma {:induction false} AtMostOncePerPress(armed: bool, changes: seq<Interaction>)
    ensures Run(armed, changes).sent + (if Run(armed, changes).armed then 1 else 0)
      <= Presses(changes) + (if armed then 1 else 0)
  {
    if changes != [] {
      AtMostOncePerPress(armed, changes[..|changes| - 1]);
    }
  }

  /** A button spawned unarmed sends no more signals than it was pressed. */
  lemma SpawnedButtonSendsAtMostPresses(changes: seq<Interaction>)
    ensures Run(false, changes).sent <= Presses(changes)
    ensures Run(false, changes).sent == PressHoverSteps(false, changes)
  {
    AtMostOncePerPress(false, changes);
    SentArePressHoverSteps(false, changes);
  }

  // ---------------------------------------------------------------------------
  // The button entities and the system
  // ---------------------------------------------------------------------------

  /** A button entity: its `ButtonSignal(signal, armed)` component and its
      `BorderColor`. */
  class Button {
    const signal: Signal
    var armed: bool
    var border: FrameColor

    /** `spawn_button`: a new button is unarmed with the grey frame. */
    constructor (signal: Signal)
      ensures this.signal == signal && !armed && border == FrameGrey
    {
      this.signal := signal;
      armed := false;
      border := FrameGrey;
    }

    /** One arm of the `match` in `button_system`, applied to this button;
        `emit` says whether it sends its signal. */
    method Interact(i: Interaction) returns (emit: bool)
      modifies this
      ensures armed == React(old(armed), i).armed && border == React(old(armed), i).border
      ensures emit == React(old(armed), i).emits
    {
      match i {
        case Pressed =>
          border := FrameWhite;
          armed := true;
          emit := false;
        case Hovered =>
          border := FrameBlack;
          emit := armed;
          armed := false;
        case Idle =>
          border := FrameGrey;
          armed := false;
          emit := false;
      }
    }
  }

  /** The armed flags of `bs`, in order. */
  ghost function ArmedFlags(bs: seq<Button>): (r: seq<bool>)
    reads set b | b in bs
    ensures |r| == |bs|
    ensures forall k :: 0 <= k < |bs| ==> r[k] == bs[k].armed
  {
    if bs == [] then []
    else ArmedFlags(bs[..|bs| - 1]) + [bs[|bs| - 1].armed]
  }

  /** The signals of `bs`, in order. */
  function Signals(bs: seq<Button>): (r: seq<Signal>)
    ensures |r| == |bs|
    ensures forall k :: 0 <= k < |bs| ==> r[k] == bs[k].signal
  {
    if bs == [] then []
    else Signals(bs[..|bs| - 1]) + [bs[|bs| - 1].signal]
  }

  /** The signals one run of `button_system` sends, in query order, for
      buttons with flags `armed`, signals `signals` and changes `changes`. */
  function Outbox(armed: seq<bool>, signals: seq<Signal>, changes: seq<Interaction>): seq<Signal>
    requires |armed| == |signals| == |changes|
  {
    if changes == [] then []
    else
      var n := |changes| - 1;
      Outbox(armed[..n], signals[..n], changes[..n]) + (if React(armed[n], changes[n]).emits then [signals[n]] else [])
  }

  /** Every signal sent comes from a button that was armed and is now hovered. */
  lemma {:induction false} OutboxFromArmedHovered(armed: seq<bool>, signals: seq<Signal>, changes: seq<Interaction>, s: Signal)
    requires |armed| == |signals| == |changes|
    requires s in Outbox(armed, signals, changes)
    ensures exists k :: 0 <= k < |changes| && armed[k] && changes[k] == Hovered && signals[k] == s
  {
    var n := |changes| - 1;
    if s in Outbox(armed[..n], signals[..n], changes[..n]) {
      OutboxFromArmedHovered(armed[..n], signals[..n], changes[..n], s);
      var k :| 0 <= k < n && armed[..n][k] && changes[..n][k] == Hovered && signals[..n][k] == s;
      assert armed[k] && changes[k] == Hovered && signals[k] == s;
    }
  }

  /** Nothing is sent when no button was armed. */
  lemma {:induction false} UnarmedSendNothing(armed: seq<bool>, signals: seq<Signal>, changes: seq<Interaction>)
    requires |armed| == |signals| == |changes|
    requires forall k :: 0 <= k < |armed| ==> !armed[k]
    ensures Outbox(armed, signals, changes) == []
  {
    if changes != [] {
      var n := |changes| - 1;
      UnarmedSendNothing(armed[..n], signals[..n], changes[..n]);
    }
  }

  /** `Outbox` over a prefix grows by at most the next button's signal. */
  lemma OutboxStep(armed: seq<bool>, signals: seq<Signal>, changes: seq<Interaction>, i: nat)
    requires |armed| == |signals| == |changes| && i < |changes|
    ensures Outbox(armed[..i + 1], signals[..i + 1], changes[..i + 1]) ==
      Outbox(armed[..i], signals[..i], changes[..i]) + (if React(armed[i], changes[i]).emits then [signals[i]] else [])
  {
    assert armed[..i + 1][..i] == armed[..i];
    assert signals[..i + 1][..i] == signals[..i];
    assert changes[..i + 1][..i] == changes[..i];
  }

  /** `button_system`: every button whose interaction changed this frame
      (`bs[k]` changed to `changes[k]`) updates its frame and armed flag, and the
      armed ones that are now hovered send their signal. */
  method ButtonSystem(bs: seq<Button>, changes: seq<Interaction>) returns (sent: seq<Signal>)
    requires |bs| == |changes|
    requires forall i, j :: 0 <= i < j < |bs| ==> bs[i] != bs[j]
    modifies set b | b in bs
    ensures forall k :: 0 <= k < |bs| ==>
      bs[k].armed == React(old(bs[k].armed), changes[k]).armed &&
      bs[k].border == React(old(bs[k].armed), changes[k]).border
    ensures sent == Outbox(old(ArmedFlags(bs)), Signals(bs), changes)
  {
    ghost var before := ArmedFlags(bs);
    ghost var signals := Signals(bs);
    sent := [];
    var i := 0;
    while i < |bs|
      invariant 0 <= i <= |bs|
      invariant forall k :: 0 <= k < i ==>
        bs[k].armed == React(before[k], changes[k]).armed && bs[k].border == React(before[k], changes[k]).border
      invariant forall k :: i <= k < |bs| ==> bs[k].armed == before[k]
      invariant sent == Outbox(before[..i], signals[..i], changes[..i])
    {
      OutboxStep(before, signals, changes, i);
      var emit := bs[i].Interact(changes[i]);
      if emit {
        sent := sent + [bs[i].signal];
      }
      i := i + 1;
    }
    assert before[..|bs|] == before;
    assert signals[..|bs|] == signals;
    assert changes[..|bs|] == changes;
  }
}
