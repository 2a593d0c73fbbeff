/** The key dispatch of src/hooks/use-keyboard.ts: on a key press the
    bindings are tried in list order and the first that matches has the
    default action prevented and its handler run. A handler is modelled by
    the value it stands for; running it is the caller's business. */
module Keyboard {
  import opened Common

  /** The parts of a `KeyboardEvent` the dispatch reads. */
  datatype KeyEvent = KeyEvent(key: string, shiftKey: bool, ctrlKey: bool, altKey: bool, metaKey: bool)

  /** `KeyBinding`: a key, a handler, and optional modifier requirements. */
  datatype KeyBinding<H> = KeyBinding(
    key: string,
    handler: H,
    shift: Option<bool>,
    ctrl: Option<bool>,
    alt: Option<bool>,
    meta: Option<bool>)

  /** A binding for a key with no modifier requirement. */
  function Plain<H>(key: string, handler: H): KeyBinding<H> {
    KeyBinding(key, handler, None, None, None, None)
  }

  /** `toLowerCase` on the ASCII capitals; every other character is kept. */
  function LowerChar(ch: char): (r: char)
    ensures 'A' <= ch <= 'Z' ==> r == (ch - 'A' + 'a') as char
    ensures !('A' <= ch <= 'Z') ==> r == ch
  {
    if 'A' <= ch <= 'Z' then (ch - 'A' + 'a') as char else ch
  }

  function ToLower(s: string): (r: string)
    ensures |r| == |s|
    ensures forall i :: 0 <= i < |s| ==> r[i] == LowerChar(s[i])
  {
    seq(|s|, i requires 0 <= i < |s| => LowerChar(s[i]))
  }

  /** A modifier the binding leaves open matches either state. */
  predicate ModifierMatches(want: Option<bool>, actual: bool) {
    want.None? || actual == want.value
  }

  predicate Matches<H>(ev: KeyEvent, b: KeyBinding<H>) {
    && ToLower(ev.key) == ToLower(b.key)
    && ModifierMatches(b.shift, ev.shiftKey)
    && ModifierMatches(b.ctrl, ev.ctrlKey)
    && ModifierMatches(b.alt, ev.altKey)
    && ModifierMatches(b.meta, ev.metaKey)
  }

  /** The position of the first binding that matches, if any. */
  function FirstMatch<H>(bindings: seq<KeyBinding<H>>, ev: KeyEvent): (r: Option<nat>)
    ensures r.Some? ==> r.value < |bindings| && Matches(ev, bindings[r.value])
    ensures r.Some? ==> forall j :: 0 <= j < r.value ==> !Matches(ev, bindings[j])
    ensures r.None? <==> forall j :: 0 <= j < |bindings| ==> !Matches(ev, bindings[j])
    decreases |bindings|
  {
    if bindings == [] then None
    else if Matches(ev, bindings[0]) then Some(0)
    else
      match FirstMatch(bindings[1..], ev)
      case None => None
      case Some(k) => Some(k + 1)
  }

  /** `handleKeyDown`: when enabled, the handler of the first matching
      binding fires and the default action is prevented; otherwise, and
      when nothing matches, nothing happens. */
  method HandleKeyDown<H>(bindings: seq<KeyBinding<H>>, ev: KeyEvent, enabled: bool)
    returns (fired: Option<H>, prevented: bool)
    ensures prevented <==> enabled && FirstMatch(bindings, ev).Some?
    ensures prevented ==> fired == Some(bindings[FirstMatch(bindings, ev).value].handler)
    ensures !prevented ==> fired == None
  {
    fired, prevented := None, false;
    if !enabled {
      return;
    }
    var i := 0;
    while i < |bindings|
      invariant 0 <= i <= |bindings|
      invariant forall j :: 0 <= j < i ==> !Matches(ev, bindings[j])
      invariant fired == None && !prevented
    {
      var binding := bindings[i];
      var keyMatch := ToLower(ev.key) == ToLower(binding.key);
      var shiftMatch := binding.shift.None? || ev.shiftKey == binding.shift.value;
      var ctrlMatch := binding.ctrl.None? || ev.ctrlKey == binding.ctrl.value;
      var altMatch := binding.alt.None? || ev.altKey == binding.alt.value;
      var metaMatch := binding.meta.None? || ev.metaKey == binding.meta.value;
      if keyMatch && shiftMatch && ctrlMatch && altMatch && metaMatch {
        prevented := true;
        fired := Some(binding.handler);
        break;
      }
      i := i + 1;
    }
  }

  /** Keys that differ only in the case of ASCII letters match the same
      bindings. */
  lemma MatchIgnoresCase<H>(ev: KeyEvent, b: KeyBinding<H>, key: string)
    requires |key| == |ev.key|
    requires forall i :: 0 <= i < |key| ==> LowerChar(key[i]) == LowerChar(ev.key[i])
    ensures Matches(ev.(key := key), b) == Matches(ev, b)
  {
    assert ToLower(key) == ToLower(ev.key);
  }

  /** A binding listed after an earlier binding that it never distinguishes
      from can never fire. */
  lemma ShadowedBindingNeverFires<H>(bindings: seq<KeyBinding<H>>, ev: KeyEvent, early: nat, late: nat)
    requires early < late < |bindings|
    requires Matches(ev, bindings[late]) ==> Matches(ev, bindings[early])
    ensures FirstMatch(bindings, ev) != Some(late)
  {
  }
}
