/**
 * The console's completion controller. While completion is active, every
 * edit asks the engine for candidates for the whole input line and publishes
 * each candidate with the part of the line up to and including its last
 * space put in front of it, so the completer can offer full-line
 * replacements. While inactive the published list is empty.
 */
module Completion {

  /** The only character that separates the part of the line being completed. */
  const Separator: char := ' '

  /** Index of the last occurrence of `c` in `s`, or -1 when `c` does not occur. */
  function LastIndexOf(s: string, c: char): (r: int)
    ensures -1 <= r < |s|
    ensures r >= 0 ==> s[r] == c
    ensures forall j :: r < j < |s| ==> s[j] != c
  {
    if |s| == 0 then -1
    else if s[|s| - 1] == c then |s| - 1
    else LastIndexOf(s[..|s| - 1], c)
  }

  /**
   * The part of the input that completion leaves alone: everything up to and
   * including the last separator, or nothing when the input has none. The
   * rest of the input holds no separator.
   */
  function Consumed(input: string): (p: string)
    ensures |p| <= |input| && p == input[..|p|]
    ensures p == [] || p[|p| - 1] == Separator
    ensures Separator !in input[|p|..]
    ensures Separator in input <==> p != []
  {
    input[..LastIndexOf(input, Separator) + 1]
  }

  /**
   * The split into a consumed part and a separator-free tail is unique, so
   * `Consumed` is the only prefix that ends at a separator (or is empty) and
   * leaves no separator behind.
   */
  lemma ConsumedIsUnique(input: string, p: string)
    requires |p| <= |input| && p == input[..|p|]
    requires p == [] || p[|p| - 1] == Separator
    requires Separator !in input[|p|..]
    ensures p == Consumed(input)
  {
    var q := Consumed(input);
    NoSeparatorAfter(input, |p|);
    NoSeparatorAfter(input, |q|);
    assert q != [] ==> input[|q| - 1] == Separator;
    assert p != [] ==> input[|p| - 1] == Separator;
  }

  lemma NoSeparatorAfter(input: string, k: nat)
    requires k <= |input| && Separator !in input[k..]
    ensures forall j :: k <= j < |input| ==> input[j] != Separator
  {
    forall j | k <= j < |input|
      ensures input[j] != Separator
    {
      assert input[k..][j - k] == input[j];
    }
  }

  /**
   * Puts the consumed part of the input in front of every engine candidate,
   * keeping the engine's order; with no separator in the input the candidates
   * pass through unchanged.
   */
  function Rewrite(input: string, candidates: seq<string>): (r: seq<string>)
    ensures |r| == |candidates|
    ensures Separator !in input ==> r == candidates
    ensures forall i :: 0 <= i < |r| ==> r[i] == Consumed(input) + candidates[i]
  {
    var lastSpace := LastIndexOf(input, Separator);
    if lastSpace >= 0 then
      var prefix := input[..lastSpace + 1];
      seq(|candidates|, i requires 0 <= i < |candidates| => prefix + candidates[i])
    else
      candidates
  }

  datatype Completer = Completer(active: bool, candidates: seq<string>)

  /** While completion is inactive nothing is offered. */
  ghost predicate Valid(c: Completer) {
    !c.active ==> c.candidates == []
  }

  /** The completer the console starts with. */
  function Initial(): (r: Completer)
    ensures Valid(r) && !r.active && r.candidates == []
  {
    Completer(false, [])
  }

  /**
   * Recomputes the published list after an edit. The engine is asked about
   * the whole input line, not only the text after the last separator.
   */
  function Update(c: Completer, input: string, complete: string -> seq<string>): (r: Completer)
    ensures r.active == c.active
    ensures !c.active ==> r.candidates == []
    ensures c.active ==> |r.candidates| == |complete(input)|
    ensures c.active ==> forall i :: 0 <= i < |r.candidates| ==>
              r.candidates[i] == Consumed(input) + complete(input)[i]
    ensures Valid(r)
  {
    if !c.active then c.(candidates := [])
    else c.(candidates := Rewrite(input, complete(input)))
  }

  /** The Tab key: turns completion on and publishes fresh candidates; already on, nothing changes. */
  function Trigger(c: Completer, input: string, complete: string -> seq<string>): (r: Completer)
    ensures c.active ==> r == c
    ensures !c.active ==> r.active && r.candidates == Rewrite(input, complete(input))
    ensures Valid(c) ==> Valid(r)
  {
    if c.active then c
    else Update(c.(active := true), input, complete)
  }

  /**
   * Turns completion off, emptying the published list; already off, nothing
   * changes. The refresh that follows the switch finds completion inactive,
   * so it empties the list without asking the engine.
   */
  function Disable(c: Completer): (r: Completer)
    ensures !c.active ==> r == c
    ensures !r.active
    ensures c.active ==> r.candidates == []
    ensures Valid(c) ==> r == Initial()
  {
    if !c.active then c
    else c.(active := false, candidates := [])
  }

  /** Both toggles are idempotent. */
  lemma TogglesIdempotent(c: Completer, input: string, complete: string -> seq<string>)
    ensures Trigger(Trigger(c, input, complete), input, complete) == Trigger(c, input, complete)
    ensures Disable(Disable(c)) == Disable(c)
  {
  }
}
