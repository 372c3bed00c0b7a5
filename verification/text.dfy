/**
 * Joining strings with a one-character separator, as `Array.prototype.join`
 * does, and its partner, splitting a string at every occurrence of that
 * character.
 */
module Text {

  /** Position of the first `ch` in `s`, or `|s|` when there is none. */
  function IndexOf(s: string, ch: char): (i: nat)
    ensures i <= |s|
    ensures i < |s| ==> s[i] == ch
    ensures forall j :: 0 <= j < i ==> s[j] != ch
  {
    if |s| == 0 then 0
    else if s[0] == ch then 0
    else 1 + IndexOf(s[1..], ch)
  }

  /**
   * `parts.join(sep)`: the empty list joins to "", one part joins to
   * itself, and consecutive parts are separated by exactly one `sep`.
   */
  function Join(parts: seq<string>, sep: char): (r: string)
    ensures |parts| == 0 ==> r == ""
    ensures |parts| > 0 ==> parts[0] <= r
    ensures |parts| == 1 ==> r == parts[0]
  {
    if |parts| == 0 then ""
    else if |parts| == 1 then parts[0]
    else parts[0] + [sep] + Join(parts[1..], sep)
  }

  /** The pieces of `s` between occurrences of `sep`; never empty. */
  function Split(s: string, sep: char): (r: seq<string>)
    ensures |r| >= 1
    ensures forall p :: p in r ==> sep !in p
    decreases |s|
  {
    var i := IndexOf(s, sep);
    if i == |s| then [s]
    else [s[..i]] + Split(s[i + 1..], sep)
  }

  /** No part contains the separator, so joining loses no boundary. */
  ghost predicate FreeOf(parts: seq<string>, sep: char)
  {
    forall p :: p in parts ==> sep !in p
  }

  /** Splitting a joined list at the separator gives the list back. */
  lemma {:induction false} SplitJoin(parts: seq<string>, sep: char)
    requires |parts| >= 1 && FreeOf(parts, sep)
    ensures Split(Join(parts, sep), sep) == parts
  {
    var p0 := parts[0];
    assert sep !in p0;
    if |parts| == 1 {
      assert IndexOf(p0, sep) == |p0|;
    } else {
      var rest := Join(parts[1..], sep);
      var s := p0 + [sep] + rest;
      assert Join(parts, sep) == s;
      assert s[|p0|] == sep;
      assert forall j :: 0 <= j < |p0| ==> s[j] == p0[j];
      assert IndexOf(s, sep) == |p0|;
      assert s[..|p0|] == p0;
      assert s[|p0| + 1..] == rest;
      assert FreeOf(parts[1..], sep) by {
        forall p | p in parts[1..] ensures sep !in p {
          assert p in parts;
        }
      }
      SplitJoin(parts[1..], sep);
      assert parts == [p0] + parts[1..];
    }
  }

  /** Joining a part in front of a non-empty list puts one separator between them. */
  lemma JoinCons(p: string, tail: seq<string>, sep: char)
    requires |tail| >= 1
    ensures Join([p] + tail, sep) == p + [sep] + Join(tail, sep)
  {
    assert ([p] + tail)[1..] == tail;
  }

  /** Joining the pieces of a split with the same separator rebuilds the string. */
  lemma {:induction false} JoinSplit(s: string, sep: char)
    ensures Join(Split(s, sep), sep) == s
    decreases |s|
  {
    var i := IndexOf(s, sep);
    if i < |s| {
      var head, rest := s[..i], s[i + 1..];
      var tail := Split(rest, sep);
      assert Split(s, sep) == [head] + tail;
      JoinSplit(rest, sep);
      JoinCons(head, tail, sep);
      assert s == head + [sep] + rest;
    }
  }
}
