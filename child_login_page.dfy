/**
  The child sign-in screen (client/pages/ChildLogin.tsx): an avatar step and a
  pattern step where four taps on a 3x3 grid of dots spell the PIN. The state
  cells are the fields of `Screen`. The asynchronous `handleDotClick` is split
  at its await: `ClickDot` runs up to the login request and hands back the PIN
  it would send, and `LoginSucceeded` / `LoginFailed` are the two ways the
  request comes back.
 */
module ChildLoginPage {
  import opened Common

  datatype Step = AvatarStep | PatternStep

  const PatternLength := 4
  const HomeRoute := "/home"
  const StartRoute := "/"
  const FormRoute := "/child-login"
  const FailureMessage := "Login failed. Please check your pattern."

  /** `Array.from({ length: 9 }, (_, i) => i + 1)`: the grid's dots. */
  const Dots: seq<int> := seq(9, i => i + 1)

  /** The selectable dots are exactly 1..9. */
  lemma DotsAreOneToNine()
    ensures |Dots| == 9
    ensures forall d :: d in Dots <==> 1 <= d <= 9
  {
    forall d | 1 <= d <= 9 ensures d in Dots {
      assert Dots[d - 1] == d;
    }
  }

  predicate IsDot(d: int)
  {
    1 <= d <= 9
  }

  /** The character a dot contributes to `pattern.join("")`. */
  function DotChar(d: int): (r: char)
    requires IsDot(d)
    ensures '1' <= r <= '9'
  {
    ('0' as int + d) as char
  }

  /** `newPattern.join("")`: one digit per dot. */
  function DotsToPin(dots: seq<int>): (r: string)
    requires forall i :: 0 <= i < |dots| ==> IsDot(dots[i])
    ensures |r| == |dots|
    ensures forall i :: 0 <= i < |r| ==> r[i] == DotChar(dots[i]) && '1' <= r[i] <= '9'
  {
    if dots == [] then "" else [DotChar(dots[0])] + DotsToPin(dots[1..])
  }

  /** Reading the digits back. */
  function PinToDots(pin: string): (r: seq<int>)
    ensures |r| == |pin|
    ensures forall i :: 0 <= i < |pin| ==> r[i] == pin[i] as int - '0' as int
  {
    if pin == "" then [] else [pin[0] as int - '0' as int] + PinToDots(pin[1..])
  }

  /** The PIN determines the pattern: distinct patterns send distinct PINs. */
  lemma PinRoundTrip(dots: seq<int>)
    requires forall i :: 0 <= i < |dots| ==> IsDot(dots[i])
    ensures PinToDots(DotsToPin(dots)) == dots
  {
    var pin := DotsToPin(dots);
    var back := PinToDots(pin);
    forall i | 0 <= i < |dots| ensures back[i] == dots[i] {
      assert pin[i] == DotChar(dots[i]);
      assert pin[i] as int == '0' as int + dots[i];
    }
  }

  /** Repeated dots are allowed: tapping dot 1 four times sends "1111". */
  lemma RepeatsAllowed()
    ensures DotsToPin([1, 1, 1, 1]) == "1111"
  {
    assert [1, 1, 1, 1][1..] == [1, 1, 1];
    assert [1, 1, 1][1..] == [1, 1];
    assert [1, 1][1..] == [1];
  }

  class Screen {
    var step: Step
    var pattern: seq<int>
    var completed: bool
    var isLoading: bool
    var error: string
    /** The router's current path; `navigate` replaces it. */
    var route: string

    /** At most four dots, each on the grid, and `completed` exactly when all four are in. */
    ghost predicate Valid()
      reads this
    {
      && |pattern| <= PatternLength
      && (forall i :: 0 <= i < |pattern| ==> IsDot(pattern[i]))
      && (completed <==> |pattern| == PatternLength)
    }

    constructor()
      ensures Valid()
      ensures step == AvatarStep && pattern == [] && !completed && !isLoading && error == "" && route == FormRoute
    {
      step := AvatarStep;
      pattern := [];
      completed := false;
      isLoading := false;
      error := "";
      route := FormRoute;
    }

    /** The hint "Click n more dots". */
    function Remaining(): (r: int)
      reads this
      requires Valid()
      ensures 0 <= r <= PatternLength
      ensures r == 0 <==> completed
    {
      PatternLength - |pattern|
    }

    /** The avatar step's Continue button. */
    method Continue()
      modifies this
      ensures step == PatternStep
      ensures pattern == old(pattern) && completed == old(completed) && isLoading == old(isLoading)
      ensures error == old(error) && route == old(route)
    {
      step := PatternStep;
    }

    /**
      A tap on a dot, which the grid offers only on the pattern step: ignored
      while completed or loading or once four dots are in; otherwise the dot is
      appended, and the fourth one starts the login, whose PIN is returned.
     */
    method ClickDot(dot: int) returns (pin: Option<string>)
      requires Valid() && IsDot(dot) && step == PatternStep
      modifies this
      ensures Valid()
      ensures step == old(step) && route == old(route)
      ensures old(completed) || old(isLoading) || |old(pattern)| >= PatternLength ==>
        pin.None? && pattern == old(pattern) && completed == old(completed)
        && isLoading == old(isLoading) && error == old(error)
      ensures !old(completed) && !old(isLoading) && |old(pattern)| < PatternLength ==>
        pattern == old(pattern) + [dot]
      ensures pin.Some? <==> !old(completed) && !old(isLoading) && |old(pattern)| == PatternLength - 1
      ensures pin.Some? ==> pin.value == DotsToPin(pattern) && completed && isLoading && error == ""
      ensures pin.None? && !old(completed) && !old(isLoading) && |old(pattern)| < PatternLength ==>
        !completed && isLoading == old(isLoading) && error == old(error)
    {
      pin := None;
      if completed || isLoading || |pattern| >= PatternLength {
        return;
      }
      var newPattern := pattern + [dot];
      pattern := newPattern;
      if |newPattern| >= PatternLength {
        completed := true;
        isLoading := true;
        error := "";
        pin := Some(DotsToPin(newPattern));
      }
    }

    /** The request succeeded: the token is stored elsewhere and the child is taken home. */
    method LoginSucceeded()
      modifies this
      ensures route == HomeRoute
      ensures step == old(step) && pattern == old(pattern) && completed == old(completed)
      ensures isLoading == old(isLoading) && error == old(error)
    {
      route := HomeRoute;
    }

    /** The request failed: the pattern is cleared so the child can try again. */
    method LoginFailed()
      modifies this
      ensures Valid()
      ensures error == FailureMessage && pattern == [] && !completed && !isLoading
      ensures step == old(step) && route == old(route)
    {
      error := FailureMessage;
      completed := false;
      pattern := [];
      isLoading := false;
    }

    /** `handleReset`. */
    method HandleReset()
      modifies this
      ensures Valid()
      ensures pattern == [] && !completed && error == ""
      ensures step == old(step) && isLoading == old(isLoading) && route == old(route)
    {
      pattern := [];
      completed := false;
      error := "";
    }

    /** `handleBack`: from the pattern step back to the avatars with the pattern cleared; from the avatars, to "/". */
    method HandleBack()
      requires Valid()
      modifies this
      ensures Valid()
      ensures old(step) == PatternStep ==>
        step == AvatarStep && pattern == [] && !completed && error == "" && route == old(route)
      ensures old(step) == AvatarStep ==>
        route == StartRoute && step == old(step) && pattern == old(pattern)
        && completed == old(completed) && error == old(error)
      ensures isLoading == old(isLoading)
    {
      if step == PatternStep {
        step := AvatarStep;
        pattern := [];
        completed := false;
        error := "";
      } else {
        route := StartRoute;
      }
    }
  }

  /** Four accepted taps from a fresh pattern send the PIN they spell, four digits over '1'..'9'. */
  method FourTaps(s: Screen, a: int, b: int, c: int, d: int) returns (pin: Option<string>)
    requires s.Valid() && s.step == PatternStep && s.pattern == [] && !s.isLoading
    requires IsDot(a) && IsDot(b) && IsDot(c) && IsDot(d)
    modifies s
    ensures pin.Some? && pin.value == DotsToPin([a, b, c, d])
    ensures |pin.value| == PatternLength && forall i :: 0 <= i < |pin.value| ==> '1' <= pin.value[i] <= '9'
  {
    pin := s.ClickDot(a);
    assert s.pattern == [a] && !s.completed && !s.isLoading;
    pin := s.ClickDot(b);
    assert s.pattern == [a, b] && !s.completed && !s.isLoading;
    pin := s.ClickDot(c);
    assert s.pattern == [a, b, c] && !s.completed && !s.isLoading;
    pin := s.ClickDot(d);
    assert s.pattern == [a, b, c, d];
  }
}
