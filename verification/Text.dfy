/** string_view searching, and splitting on a separator as its specification. */
module Text {
  import opened WebTypes

  /** `find`: the first position at or after `from` holding `c`. */
  function Find(s: string, c: char, from: nat): (r: Option<nat>)
    ensures r.Some? ==> from <= r.value < |s| && s[r.value] == c
    ensures r.Some? ==> forall k :: from <= k < r.value ==> s[k] != c
    ensures r.None? ==> forall k :: from <= k < |s| ==> s[k] != c
    decreases |s| - from
  {
    if from >= |s| then None
    else if s[from] == c then Some(from)
    else Find(s, c, from + 1)
  }

  /** The pieces of `s[from..]` between separators; there is always at least one. */
  function Split(s: string, c: char, from: nat): (parts: seq<string>)
    requires from <= |s|
    ensures |parts| >= 1
    decreases |s| - from
  {
    var separator := Find(s, c, from);
    if separator.None? then [s[from..]]
    else [s[from..separator.value]] + Split(s, c, separator.value + 1)
  }

  /** One turn of every segment loop: the piece at `from`, then the pieces after the separator. */
  lemma SplitStep(s: string, c: char, from: nat)
    requires from <= |s|
    ensures var parts, separator := Split(s, c, from), Find(s, c, from);
            if separator.None? then parts[0] == s[from..|s|] && parts[1..] == []
            else parts[0] == s[from..separator.value] && parts[1..] == Split(s, c, separator.value + 1)
  {
  }

  function Join(parts: seq<string>, c: char): string {
    if |parts| == 0 then ""
    else if |parts| == 1 then parts[0]
    else parts[0] + [c] + Join(parts[1..], c)
  }

  /** Total length of the pieces. */
  function TotalLength(parts: seq<string>): nat {
    if |parts| == 0 then 0 else |parts[0]| + TotalLength(parts[1..])
  }

  /** Joining the pieces of a split restores the string. */
  lemma {:induction false} JoinSplit(s: string, c: char, from: nat)
    requires from <= |s|
    ensures Join(Split(s, c, from), c) == s[from..]
    decreases |s| - from
  {
    var separator := Find(s, c, from);
    if separator.Some? {
      var i := separator.value;
      JoinSplit(s, c, i + 1);
      var rest := Split(s, c, i + 1);
      assert ([s[from..i]] + rest)[1..] == rest;
      assert s[from..] == s[from..i] + [c] + s[i + 1..];
    }
  }

  lemma SplitAtSeparator(s: string, c: char, from: nat, at: nat)
    requires from <= at < |s| && s[at] == c && forall k :: from <= k < at ==> s[k] != c
    ensures Split(s, c, from) == [s[from..at]] + Split(s, c, at + 1)
  {
    assert Find(s, c, from) == Some(at);
  }

  /** Splitting a join restores pieces that do not hold the separator. */
  lemma {:induction false} SplitJoin(s: string, from: nat, parts: seq<string>, c: char)
    requires |parts| >= 1
    requires forall p :: p in parts ==> c !in p
    requires from <= |s| && s[from..] == Join(parts, c)
    ensures Split(s, c, from) == parts
    decreases |parts|
  {
    hide Split, Find;
    var head := parts[0];
    assert head in parts;
    if |parts| == 1 {
      assert forall k :: from <= k < |s| ==> s[k] == head[k - from];
      SplitWhole(s, c, from);
    } else {
      var rest, at := parts[1..], from + |head|;
      assert s[from..] == head + [c] + Join(rest, c);
      JoinIndices(s, from, head, c, Join(rest, c));
      SplitAtSeparator(s, c, from, at);
      assert forall p :: p in rest ==> p in parts;
      hide Join;
      SplitJoin(s, at + 1, rest, c);
      assert parts == [head] + rest;
    }
  }

  lemma SplitWhole(s: string, c: char, from: nat)
    requires from <= |s| && forall k :: from <= k < |s| ==> s[k] != c
    ensures Split(s, c, from) == [s[from..]]
  {
    assert Find(s, c, from).None?;
  }

  lemma JoinIndices(s: string, from: nat, head: string, c: char, tail: string)
    requires from <= |s| && s[from..] == head + [c] + tail && c !in head
    ensures var at := from + |head|;
            && at < |s| && s[at] == c && s[from..at] == head && s[at + 1..] == tail
            && forall k :: from <= k < at ==> s[k] != c
  {
    var rest := s[from..];
    assert forall k :: from <= k < |s| ==> s[k] == rest[k - from];
    assert forall k :: 0 <= k < |head| ==> rest[k] == head[k];
  }

  /** No piece of a split holds the separator. */
  lemma {:induction false} SplitPiecesFree(s: string, c: char, from: nat)
    requires from <= |s|
    ensures forall p :: p in Split(s, c, from) ==> c !in p
    decreases |s| - from
  {
    var separator := Find(s, c, from);
    if separator.Some? {
      SplitPiecesFree(s, c, separator.value + 1);
    }
  }

  /** The pieces of a string are the one decomposition of it that holds no separator. */
  lemma SplitExactly(s: string, c: char, parts: seq<string>)
    ensures parts == Split(s, c, 0) <==>
            |parts| >= 1 && (forall p :: p in parts ==> c !in p) && Join(parts, c) == s
  {
    assert s[0..] == s;
    JoinSplit(s, c, 0);
    SplitPiecesFree(s, c, 0);
    if |parts| >= 1 && (forall p :: p in parts ==> c !in p) && Join(parts, c) == s {
      SplitJoin(s, 0, parts, c);
    }
  }

  /** A string is as long as its pieces and the separators between them. */
  lemma {:induction false} SplitLength(s: string, c: char, from: nat)
    requires from <= |s|
    ensures |s| - from + 1 == TotalLength(Split(s, c, from)) + |Split(s, c, from)|
    decreases |s| - from
  {
    var separator := Find(s, c, from);
    if separator.Some? {
      SplitLength(s, c, separator.value + 1);
      assert Split(s, c, from)[1..] == Split(s, c, separator.value + 1);
    } else {
      assert Split(s, c, from)[1..] == [];
    }
  }

  /** The last piece is empty exactly when nothing, or a separator, comes last. */
  lemma {:induction false} SplitTrailing(s: string, c: char, from: nat)
    requires from <= |s|
    ensures var parts := Split(s, c, from);
            parts[|parts| - 1] == "" <==> from == |s| || s[|s| - 1] == c
    decreases |s| - from
  {
    var separator := Find(s, c, from);
    if separator.Some? {
      SplitTrailing(s, c, separator.value + 1);
    }
  }
}
