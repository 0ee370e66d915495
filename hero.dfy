/**
 * The typewriter effect of the Hero section: a fixed list of role titles is
 * typed out one character per timer tick, held for a pause, deleted one
 * character per tick, and then the next role is started, wrapping around.
 * The timers become two events: `Tick` (the 100 ms typing or 50 ms deleting
 * timeout that runs `typeText`) and `PauseElapsed` (the 2000 ms timeout that
 * switches to deleting).
 */
module Hero {
  import opened JsString

  /** The role titles, in display order. */
  const Roles: seq<string> := ["Web Developer", "UX/UI Designer", "Content Creator"]

  datatype Event = Tick | PauseElapsed

  /**
   * `currentTextIndex`, `currentText` and `isDeleting`, plus whether the
   * pause timeout has been started and has not fired yet. While it is
   * pending no tick timeout exists: the tick that started it changed no
   * state, so the component was not rendered again.
   */
  datatype Typing = Typing(index: nat, text: string, deleting: bool, pausePending: bool)

  /** The state right after mounting: first role, nothing shown, typing. */
  const Start: Typing := Typing(0, "", false, false)

  /**
   * The index names a role, the text shown is a prefix of that role, and a
   * pending pause means the role is shown in full and nothing is deleted yet.
   */
  ghost predicate Inv(texts: seq<string>, s: Typing) {
    s.index < |texts| && s.text <= texts[s.index]
    && (s.pausePending ==> !s.deleting && s.text == texts[s.index])
  }

  /**
   * One event. On a tick, `typeText` sets the text to `substring(0, len - 1)`
   * or `substring(0, len + 1)` of the full role, so the clamping of
   * `substring` applies at both ends; while deleting, a tick that finds the
   * text already empty switches to typing and advances the index modulo
   * the number of roles; while typing, a tick that finds the role complete
   * starts the pause. An event whose timer is not pending leaves the state as it is.
   */
  function Step(texts: seq<string>, s: Typing, e: Event): (r: Typing)
    requires s.index < |texts|
    ensures r.index < |texts|
    ensures r.index == s.index || r.index == (s.index + 1) % |texts|
    ensures s.text <= texts[s.index] ==> r.text <= texts[r.index]
    ensures s.text <= texts[s.index] ==>
              r.text == s.text || |r.text| == |s.text| + 1 || |r.text| + 1 == |s.text|
  {
    match e
    case Tick =>
      if s.pausePending then s
      else
        var full := texts[s.index];
        if s.deleting then
          var text := Substring(full, 0, |s.text| - 1);
          if s.text == "" then Typing((s.index + 1) % |texts|, text, false, false)
          else Typing(s.index, text, true, false)
        else
          Typing(s.index, Substring(full, 0, |s.text| + 1), false, s.text == full)
    case PauseElapsed =>
      if s.pausePending then Typing(s.index, s.text, true, false) else s
  }

  /** Every event keeps the invariant: in particular the text stays a prefix of the current role. */
  lemma StepKeepsInv(texts: seq<string>, s: Typing, e: Event)
    requires Inv(texts, s)
    ensures Inv(texts, Step(texts, s, e))
  {
    var full := texts[s.index];
    SubstringFromZero(full, |s.text| - 1);
    SubstringFromZero(full, |s.text| + 1);
  }

  /**
   * A typing tick adds exactly the next character of the role while the role
   * is incomplete; on the complete role it changes no text and starts the pause.
   */
  lemma TypingTick(texts: seq<string>, s: Typing)
    requires Inv(texts, s) && !s.deleting && !s.pausePending
    ensures |s.text| < |texts[s.index]| ==>
              Step(texts, s, Tick) == Typing(s.index, texts[s.index][..|s.text| + 1], false, false)
    ensures |s.text| < |texts[s.index]| ==> Step(texts, s, Tick).text == s.text + [texts[s.index][|s.text|]]
    ensures |s.text| == |texts[s.index]| ==> Step(texts, s, Tick) == s.(pausePending := true)
  {
    var full := texts[s.index];
    SubstringFromZero(full, |s.text| + 1);
    if |s.text| < |full| {
      assert full[..|s.text| + 1] == full[..|s.text|] + [full[|s.text|]];
      assert full[..|s.text|] == s.text;
    } else {
      assert full[..|full|] == full;
    }
  }

  /**
   * A deleting tick drops exactly the last character while there is one; on
   * the empty text it keeps it empty, switches to typing and moves to the next role.
   */
  lemma DeletingTick(texts: seq<string>, s: Typing)
    requires Inv(texts, s) && s.deleting
    ensures s.text != "" ==> Step(texts, s, Tick) == s.(text := s.text[..|s.text| - 1])
    ensures s.text == "" ==> Step(texts, s, Tick) == Typing((s.index + 1) % |texts|, "", false, false)
  {
    var full := texts[s.index];
    SubstringFromZero(full, |s.text| - 1);
    if s.text != "" {
      assert full[..|s.text| - 1] == s.text[..|s.text| - 1];
    }
  }

  /**
   * The index moves only on a deleting tick that finds the text empty, and
   * then by one, modulo the number of roles.
   */
  lemma IndexMovesOnlyOnWrap(texts: seq<string>, s: Typing, e: Event)
    requires Inv(texts, s)
    ensures Step(texts, s, e).index != s.index ==>
              e == Tick && s.deleting && s.text == "" && Step(texts, s, e).index == (s.index + 1) % |texts|
    ensures e == Tick && s.deleting && s.text == "" ==> Step(texts, s, e).index == (s.index + 1) % |texts|
  {
  }

  /** Deleting starts only when the pause fires, and only with the whole role on display. */
  lemma DeletionOnlyAfterFullRole(texts: seq<string>, s: Typing, e: Event)
    requires Inv(texts, s)
    ensures !s.deleting && Step(texts, s, e).deleting ==>
              e == PauseElapsed && s.text == texts[s.index] && Step(texts, s, e).text == texts[s.index]
  {
  }

  /** The state after a sequence of events. */
  function Run(texts: seq<string>, s: Typing, events: seq<Event>): (r: Typing)
    requires s.index < |texts|
    ensures r.index < |texts|
    decreases |events|
  {
    if events == [] then s else Run(texts, Step(texts, s, events[0]), events[1..])
  }

  lemma {:induction false} RunAppend(texts: seq<string>, s: Typing, a: seq<Event>, b: seq<Event>)
    requires s.index < |texts|
    ensures Run(texts, s, a + b) == Run(texts, Run(texts, s, a), b)
    decreases |a|
  {
    if a == [] {
      assert a + b == b;
    } else {
      assert (a + b)[1..] == a[1..] + b;
      RunAppend(texts, Step(texts, s, a[0]), a[1..], b);
    }
  }

  /** No sequence of events can break the invariant. */
  lemma {:induction false} RunKeepsInv(texts: seq<string>, s: Typing, events: seq<Event>)
    requires Inv(texts, s)
    ensures Inv(texts, Run(texts, s, events))
    decreases |events|
  {
    if events != [] {
      StepKeepsInv(texts, s, events[0]);
      RunKeepsInv(texts, Step(texts, s, events[0]), events[1..]);
    }
  }

  function Ticks(n: nat): (r: seq<Event>)
    ensures |r| == n && forall i :: 0 <= i < n ==> r[i] == Tick
  {
    seq(n, _ => Tick)
  }

  /** `k` typing ticks from a prefix of length `j` show the prefix of length `j + k`. */
  lemma {:induction false} TypeOut(texts: seq<string>, i: nat, j: nat, k: nat)
    requires i < |texts| && j + k <= |texts[i]|
    ensures Run(texts, Typing(i, texts[i][..j], false, false), Ticks(k)) == Typing(i, texts[i][..j + k], false, false)
    decreases k
  {
    if k > 0 {
      TypingTick(texts, Typing(i, texts[i][..j], false, false));
      assert Ticks(k)[1..] == Ticks(k - 1);
      TypeOut(texts, i, j + 1, k - 1);
    }
  }

  /** `k` deleting ticks from a prefix of length `j >= k` show the prefix of length `j - k`. */
  lemma {:induction false} DeleteOut(texts: seq<string>, i: nat, j: nat, k: nat)
    requires i < |texts| && k <= j <= |texts[i]|
    ensures Run(texts, Typing(i, texts[i][..j], true, false), Ticks(k)) == Typing(i, texts[i][..j - k], true, false)
    decreases k
  {
    if k > 0 {
      DeletingTick(texts, Typing(i, texts[i][..j], true, false));
      assert texts[i][..j][..j - 1] == texts[i][..j - 1];
      assert Ticks(k)[1..] == Ticks(k - 1);
      DeleteOut(texts, i, j - 1, k - 1);
    }
  }

  /** From mounting, as many ticks as the first role has characters display that role verbatim. */
  lemma FirstRoleTyped(texts: seq<string>)
    requires |texts| > 0
    ensures Run(texts, Start, Ticks(|texts[0]|)) == Typing(0, texts[0], false, false)
  {
    assert texts[0][..0] == "";
    TypeOut(texts, 0, 0, |texts[0]|);
    assert texts[0][..|texts[0]|] == texts[0];
  }

  /** For this site: thirteen ticks after mounting, "Web Developer" is on display. */
  lemma WebDeveloperTypedFirst()
    ensures Run(Roles, Start, Ticks(13)).text == "Web Developer"
  {
    FirstRoleTyped(Roles);
  }

  /**
   * The site's roles lie in the Basic Multilingual Plane, so counting
   * characters, as this model does, agrees with the UTF-16 code units that
   * `length` and `substring` count.
   */
  lemma RolesAreSingleCodeUnits()
    ensures forall i :: 0 <= i < |Roles| ==> Utf16Length(Roles[i]) == |Roles[i]|
  {
    forall i | 0 <= i < |Roles| ensures Utf16Length(Roles[i]) == |Roles[i]| {
      var role := Roles[i];
      assert forall j :: 0 <= j < |role| ==> InBmp(role[j]);
      Utf16LengthOfBmp(role);
    }
  }

  /**
   * One full cycle for a role of length `n`: `n` ticks to type it, one tick
   * that finds it complete, the pause, `n` ticks to delete it and one tick
   * that finds the text empty.
   */
  function CycleEvents(n: nat): seq<Event> {
    Ticks(n + 1) + [PauseElapsed] + Ticks(n + 1)
  }

  /**
   * A cycle started on role `i` with an empty text shows role `i` in full,
   * and ends on the next role, again empty and typing.
   */
  lemma OneCycle(texts: seq<string>, i: nat)
    requires i < |texts|
    ensures Run(texts, Typing(i, "", false, false), Ticks(|texts[i]|)).text == texts[i]
    ensures Run(texts, Typing(i, "", false, false), CycleEvents(|texts[i]|))
            == Typing((i + 1) % |texts|, "", false, false)
  {
    var full := texts[i];
    var n := |full|;
    var s0 := Typing(i, "", false, false);
    assert full[..0] == "" && full[..n] == full;
    TypeOut(texts, i, 0, n);
    var typed := Typing(i, full, false, false);
    assert Run(texts, s0, Ticks(n)) == typed;
    TypingTick(texts, typed);
    assert Ticks(n + 1) == Ticks(n) + [Tick];
    RunAppend(texts, s0, Ticks(n), [Tick]);
    var paused := typed.(pausePending := true);
    assert Run(texts, s0, Ticks(n + 1)) == paused;
    RunAppend(texts, s0, Ticks(n + 1), [PauseElapsed]);
    var deleting := Typing(i, full, true, false);
    assert Run(texts, s0, Ticks(n + 1) + [PauseElapsed]) == deleting;
    DeleteOut(texts, i, n, n);
    var emptied := Typing(i, "", true, false);
    assert Run(texts, deleting, Ticks(n)) == emptied;
    DeletingTick(texts, emptied);
    RunAppend(texts, deleting, Ticks(n), [Tick]);
    assert Run(texts, deleting, Ticks(n + 1)) == Typing((i + 1) % |texts|, "", false, false);
    RunAppend(texts, s0, Ticks(n + 1) + [PauseElapsed], Ticks(n + 1));
  }

  /** The events of `k` consecutive cycles starting on role `i`. */
  function CyclesFrom(texts: seq<string>, i: nat, k: nat): seq<Event>
    requires i < |texts|
    decreases k
  {
    if k == 0 then [] else CycleEvents(|texts[i]|) + CyclesFrom(texts, (i + 1) % |texts|, k - 1)
  }

  /** `(i + 1) % n` on a valid index: the next index, or 0 after the last one. */
  lemma NextIndex(i: nat, n: nat)
    requires i < n
    ensures (i + 1) % n == if i + 1 == n then 0 else i + 1
  {
  }

  /** The index reached from `i` after `k` wrap-arounds of `(index + 1) % n`. */
  function Advance(i: nat, k: nat, n: nat): (r: nat)
    requires i < n
    ensures r < n
    decreases k
  {
    if k == 0 then i else Advance((i + 1) % n, k - 1, n)
  }

  /** Within one round, advancing is addition that wraps at most once. */
  lemma {:induction false} AdvanceWithinRound(i: nat, k: nat, n: nat)
    requires i < n && k <= n
    ensures Advance(i, k, n) == if i + k < n then i + k else i + k - n
    decreases k
  {
    if k > 0 {
      NextIndex(i, n);
      AdvanceWithinRound((i + 1) % n, k - 1, n);
    }
  }

  /** `k` cycles from role `i` end on the role `k` places further on, empty and typing. */
  lemma {:induction false} ManyCycles(texts: seq<string>, i: nat, k: nat)
    requires i < |texts|
    ensures Run(texts, Typing(i, "", false, false), CyclesFrom(texts, i, k))
            == Typing(Advance(i, k, |texts|), "", false, false)
    decreases k
  {
    if k == 0 {
      assert CyclesFrom(texts, i, k) == [];
    } else {
      var next := (i + 1) % |texts|;
      OneCycle(texts, i);
      RunAppend(texts, Typing(i, "", false, false), CycleEvents(|texts[i]|), CyclesFrom(texts, next, k - 1));
      ManyCycles(texts, next, k - 1);
    }
  }

  /** After as many cycles as there are roles, the rotation is back at the role it started on. */
  lemma FullRotation(texts: seq<string>, i: nat)
    requires i < |texts|
    ensures Run(texts, Typing(i, "", false, false), CyclesFrom(texts, i, |texts|)) == Typing(i, "", false, false)
  {
    ManyCycles(texts, i, |texts|);
    AdvanceWithinRound(i, |texts|, |texts|);
  }

  /** The Hero component's typewriter state, updated in place by its two timer callbacks. */
  class TypewriterEffect {
    const texts: seq<string>
    var currentTextIndex: nat
    var currentText: string
    var isDeleting: bool
    var pausePending: bool

    function Snapshot(): Typing
      reads this
    {
      Typing(currentTextIndex, currentText, isDeleting, pausePending)
    }

    ghost predicate Valid()
      reads this
    {
      |texts| > 0 && Inv(texts, Snapshot())
    }

    constructor ()
      ensures Valid() && texts == Roles && Snapshot() == Start
    {
      texts := Roles;
      currentTextIndex, currentText, isDeleting, pausePending := 0, "", false, false;
    }

    /** `typeText`, run when the tick timeout fires. */
    method TypeText()
      requires Valid() && !pausePending
      modifies this
      ensures Valid()
      ensures Snapshot() == Step(texts, old(Snapshot()), Tick)
    {
      StepKeepsInv(texts, Snapshot(), Tick);
      var currentFullText := texts[currentTextIndex];
      var shown := currentText;
      if isDeleting {
        currentText := Substring(currentFullText, 0, |shown| - 1);
        if shown == "" {
          isDeleting := false;
          currentTextIndex := (currentTextIndex + 1) % |texts|;
        }
      } else {
        currentText := Substring(currentFullText, 0, |shown| + 1);
        if shown == currentFullText {
          pausePending := true;
        }
      }
    }

    /** The pause timeout fires: `setIsDeleting(true)`. */
    method PauseElapsed()
      requires Valid() && pausePending
      modifies this
      ensures Valid()
      ensures Snapshot() == Step(texts, old(Snapshot()), Event.PauseElapsed)
    {
      StepKeepsInv(texts, Snapshot(), Event.PauseElapsed);
      isDeleting := true;
      pausePending := false;
    }
  }
}
