/**
 * The textual rendering of a replay memory: `ReplayMemory([a, b, c])`, the
 * items' own renderings joined by a comma and a space, with no separator
 * after the last one.
 */
module Render {

  const Separator: string := ", "
  const Opening: string := "ReplayMemory(["
  const Closing: string := "])"

  /** The parts joined by `Separator`, built from the right as the rendering loop builds it. */
  function Join(parts: seq<string>): (r: string)
  {
    if |parts| == 0 then ""
    else if |parts| == 1 then parts[0]
    else Join(parts[..|parts| - 1]) + Separator + parts[|parts| - 1]
  }

  /** Each item rendered by `show`, in slot order. */
  function Shown<T>(show: T -> string, items: seq<T>): (r: seq<string>)
    ensures |r| == |items|
    ensures forall k :: 0 <= k < |items| ==> r[k] == show(items[k])
  {
    if |items| == 0 then [] else Shown(show, items[..|items| - 1]) + [show(items[|items| - 1])]
  }

  function Rendered<T>(show: T -> string, items: seq<T>): string
  {
    Opening + Join(Shown(show, items)) + Closing
  }

  /** Joining from the left gives the same text: the first part, a separator, then the rest. */
  lemma {:induction false} JoinCons(first: string, rest: seq<string>)
    requires |rest| > 0
    ensures Join([first] + rest) == first + Separator + Join(rest)
  {
    var parts := [first] + rest;
    if |rest| == 1 {
      assert parts[..1] == [first];
    } else {
      var init := rest[..|rest| - 1];
      assert parts[..|parts| - 1] == [first] + init;
      JoinCons(first, init);
    }
  }

  /** No separator ends the joined text: it finishes with the last part itself. */
  lemma JoinEndsWithLast(parts: seq<string>)
    requires |parts| > 0
    ensures |Join(parts)| >= |parts[|parts| - 1]|
    ensures Join(parts)[|Join(parts)| - |parts[|parts| - 1]|..] == parts[|parts| - 1]
  {
  }

  /** The joined text starts with the first part, with no separator in front. */
  lemma JoinStartsWithFirst(parts: seq<string>)
    requires |parts| > 0
    ensures |Join(parts)| >= |parts[0]| && Join(parts)[..|parts[0]|] == parts[0]
  {
    if |parts| > 1 {
      assert parts == [parts[0]] + parts[1..];
      JoinCons(parts[0], parts[1..]);
    }
  }

  lemma RenderedEmpty<T>(show: T -> string)
    ensures Rendered(show, []) == "ReplayMemory([])"
  {
  }

  lemma RenderedThree<T>(show: T -> string, a: T, b: T, c: T)
    ensures Rendered(show, [a, b, c]) == "ReplayMemory([" + show(a) + ", " + show(b) + ", " + show(c) + "])"
  {
    var parts := Shown(show, [a, b, c]);
    assert parts == [show(a), show(b), show(c)];
    assert parts[..2][..1] == [show(a)];
    assert parts[..2] == [show(a), show(b)];
    assert Join(parts[..2]) == show(a) + Separator + show(b);
    assert Join(parts) == show(a) + Separator + show(b) + Separator + show(c);
  }
}
