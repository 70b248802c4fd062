/** Route patterns: the two string loops of the router, and what they compute on segment lists. */
module Patterns {
  import opened WebTypes
  import opened Text

  const MAX_ROUTE_PARAMETERS: nat := 8

  datatype ParameterView = ParameterView(name: string, value: string)

  /** The fixed-capacity parameter list a match fills. */
  class RouteParameters {
    const values: array<ParameterView>
    var count: nat

    ghost predicate Valid()
      reads this
    {
      values.Length == MAX_ROUTE_PARAMETERS && count <= MAX_ROUTE_PARAMETERS
    }

    ghost function Contents(): seq<ParameterView>
      requires Valid()
      reads this, values
    {
      values[..count]
    }

    constructor ()
      ensures Valid() && fresh(values) && Contents() == []
    {
      values := new ParameterView[MAX_ROUTE_PARAMETERS](_ => ParameterView("", ""));
      count := 0;
    }

    method Get(index: nat) returns (view: Option<ParameterView>)
      requires Valid()
      ensures view == if index < |Contents()| then Some(Contents()[index]) else None
    {
      view := if index < count then Some(values[index]) else None;
    }

    /** The value of the first parameter called `name`, or the empty view. */
    method FindValue(name: string) returns (value: string)
      requires Valid()
      ensures (exists k :: 0 <= k < |Contents()| && Contents()[k].name == name &&
                 value == Contents()[k].value && forall j :: 0 <= j < k ==> Contents()[j].name != name) ||
              (value == "" && forall k :: 0 <= k < |Contents()| ==> Contents()[k].name != name)
    {
      for index := 0 to count
        invariant forall j :: 0 <= j < index ==> Contents()[j].name != name
      {
        if values[index].name == name {
          assert Contents()[index].name == name;
          return values[index].value;
        }
      }
      return "";
    }

    method Add(name: string, value: string) returns (added: bool)
      requires Valid()
      modifies this`count, values
      ensures Valid()
      ensures added <==> |old(Contents())| < MAX_ROUTE_PARAMETERS
      ensures Contents() == if added then old(Contents()) + [ParameterView(name, value)] else old(Contents())
    {
      if count >= values.Length {
        return false;
      }
      values[count] := ParameterView(name, value);
      count := count + 1;
      return true;
    }

    /** Copy assignment. */
    method CopyFrom(other: RouteParameters)
      requires Valid() && other.Valid() && other != this && other.values != values
      modifies this`count, values
      ensures Valid() && Contents() == other.Contents()
    {
      for index := 0 to values.Length
        invariant forall k :: 0 <= k < index ==> values[k] == other.values[k]
      {
        values[index] := other.values[index];
      }
      count := other.count;
    }
  }

  // ---------------------------------------------------------------- specification

  /** What follows the leading slash, cut at every slash. */
  function Segments(s: string): seq<string>
    requires |s| > 0
  {
    Split(s, '/', 1)
  }

  predicate Named(segment: string) {
    |segment| > 0 && segment[0] == ':'
  }

  function NamedCount(segments: seq<string>): nat {
    if |segments| == 0 then 0
    else (if Named(segments[0]) then 1 else 0) + NamedCount(segments[1..])
  }

  function LiteralCount(segments: seq<string>): nat {
    if |segments| == 0 then 0
    else (if Named(segments[0]) then 0 else |segments[0]|) + LiteralCount(segments[1..])
  }

  predicate GoodSegment(segment: string) {
    segment != "" && segment != ":"
  }

  predicate AllGood(segments: seq<string>) {
    forall k :: 0 <= k < |segments| ==> GoodSegment(segments[k])
  }

  /** The patterns that registration admits. */
  predicate Registrable(pattern: string) {
    && |pattern| > 0
    && pattern[0] == '/'
    && (pattern == "/" || AllGood(Segments(pattern)))
    && NamedCount(Segments(pattern)) <= MAX_ROUTE_PARAMETERS
  }

  predicate SegmentAccepts(pattern: string, segment: string) {
    if Named(pattern) then segment != "" else pattern == segment
  }

  predicate SegmentsMatch(patterns: seq<string>, segments: seq<string>) {
    && |patterns| == |segments|
    && forall k :: 0 <= k < |patterns| ==> SegmentAccepts(patterns[k], segments[k])
  }

  /** The (name, segment) pairs of the named segments, in order. */
  function Bindings(patterns: seq<string>, segments: seq<string>): seq<ParameterView> {
    if |patterns| == 0 || |segments| == 0 then []
    else
      var rest := Bindings(patterns[1..], segments[1..]);
      if Named(patterns[0]) then [ParameterView(patterns[0][1..], segments[0])] + rest else rest
  }

  predicate PathShaped(path: string) {
    |path| > 0 && path[0] == '/' && !(|path| > 1 && path[|path| - 1] == '/')
  }

  /** Segment-by-segment agreement of a pattern and a path. */
  predicate Matches(pattern: string, path: string)
    requires |pattern| > 0
  {
    |path| > 0 && path[0] == '/' && SegmentsMatch(Segments(pattern), Segments(path))
  }

  // ---------------------------------------------------------------- the loops

  datatype PatternAnalysis = PatternAnalysis(valid: bool, namedParameterCount: nat, literalCharacterCount: nat)

  method AnalyzePattern(pattern: string) returns (analysis: PatternAnalysis)
    ensures analysis.valid <==> Registrable(pattern)
    ensures analysis.valid ==>
              && analysis.namedParameterCount == NamedCount(Segments(pattern))
              && analysis.literalCharacterCount == LiteralCount(Segments(pattern))
  {
    hide Split, Find, NamedCount, LiteralCount, AllGood;
    var named: nat, literal: nat := 0, 0;
    if pattern == "" || pattern[0] != '/' {
      return PatternAnalysis(false, named, literal);
    }
    if |pattern| > 1 && pattern[|pattern| - 1] == '/' {
      TrailingSlashNotGood(pattern);
      return PatternAnalysis(false, named, literal);
    }

    var position := 1;
    ghost var left := Segments(pattern);
    while position <= |pattern|
      invariant 1 <= position <= |pattern|
      invariant position < |pattern| || |pattern| == 1
      invariant left == Split(pattern, '/', position)
      invariant AllGood(Segments(pattern)) <==> AllGood(left)
      invariant named + NamedCount(left) == NamedCount(Segments(pattern))
      invariant named <= MAX_ROUTE_PARAMETERS
      invariant literal + LiteralCount(left) == LiteralCount(Segments(pattern))
    {
      var separator := Find(pattern, '/', position);
      var end := if separator.None? then |pattern| else separator.value;
      var segment := pattern[position..end];
      SplitStep(pattern, '/', position);
      AnalysisStep(left);
      left := left[1..];

      if segment == "" && position < |pattern| {
        return PatternAnalysis(false, named, literal);
      }
      if segment != "" && segment[0] == ':' {
        if |segment| == 1 {
          assert segment == ":";
          return PatternAnalysis(false, named, literal);
        }
        named := named + 1;
        if named > MAX_ROUTE_PARAMETERS {
          return PatternAnalysis(false, 0, 0);
        }
      } else {
        literal := literal + |segment|;
      }
      if separator.None? {
        break;
      }
      position := separator.value + 1;
    }
    return PatternAnalysis(true, named, literal);
  }

  lemma AnalysisStep(left: seq<string>)
    requires |left| > 0
    ensures AllGood(left) <==> GoodSegment(left[0]) && AllGood(left[1..])
    ensures NamedCount(left) == (if Named(left[0]) then 1 else 0) + NamedCount(left[1..])
    ensures LiteralCount(left) == (if Named(left[0]) then 0 else |left[0]|) + LiteralCount(left[1..])
    ensures |left| == 1 ==> AllGood(left[1..]) && NamedCount(left[1..]) == 0 && LiteralCount(left[1..]) == 0
  {
    var rest := left[1..];
    assert forall k :: 0 <= k < |rest| ==> rest[k] == left[k + 1];
    if AllGood(rest) && GoodSegment(left[0]) {
      assert forall k :: 0 < k < |left| ==> left[k] == rest[k - 1];
    }
  }

  lemma TrailingSlashNotGood(pattern: string)
    requires |pattern| > 1 && pattern[|pattern| - 1] == '/'
    ensures !AllGood(Segments(pattern))
  {
    SplitTrailing(pattern, '/', 1);
    var segments := Segments(pattern);
    assert !GoodSegment(segments[|segments| - 1]);
  }

  /** How far a match has come: `bound` so far, the segments still to compare. */
  ghost predicate Progress(start: seq<ParameterView>, bound: seq<ParameterView>,
                           patterns: seq<string>, segments: seq<string>,
                           allPatterns: seq<string>, allSegments: seq<string>)
  {
    && (SegmentsMatch(allPatterns, allSegments) <==> SegmentsMatch(patterns, segments))
    && |bound| + NamedCount(patterns) == |start| + NamedCount(allPatterns)
    && bound + Bindings(patterns, segments) == start + Bindings(allPatterns, allSegments)
  }

  lemma ProgressStart(start: seq<ParameterView>, allPatterns: seq<string>, allSegments: seq<string>)
    ensures Progress(start, start, allPatterns, allSegments, allPatterns, allSegments)
  {
  }

  /** One segment of each: a refusal is final, an acceptance binds what it should. */
  lemma ProgressStep(start: seq<ParameterView>, bound: seq<ParameterView>,
                     patterns: seq<string>, segments: seq<string>,
                     allPatterns: seq<string>, allSegments: seq<string>)
    requires |patterns| > 0 && |segments| > 0
    requires Progress(start, bound, patterns, segments, allPatterns, allSegments)
    ensures |bound| + (if Named(patterns[0]) then 1 else 0) <= |start| + NamedCount(allPatterns)
    ensures !SegmentAccepts(patterns[0], segments[0]) ==> !SegmentsMatch(allPatterns, allSegments)
    ensures SegmentAccepts(patterns[0], segments[0]) ==>
              Progress(start,
                       if Named(patterns[0]) then bound + [ParameterView(patterns[0][1..], segments[0])] else bound,
                       patterns[1..], segments[1..], allPatterns, allSegments)
  {
    if SegmentAccepts(patterns[0], segments[0]) {
      if SegmentsMatch(patterns[1..], segments[1..]) {
        forall k | 0 <= k < |patterns| ensures SegmentAccepts(patterns[k], segments[k]) {
          if k > 0 {
            assert patterns[k] == patterns[1..][k - 1] && segments[k] == segments[1..][k - 1];
          }
        }
      }
      if Named(patterns[0]) {
        var view := ParameterView(patterns[0][1..], segments[0]);
        var rest := Bindings(patterns[1..], segments[1..]);
        assert bound + ([view] + rest) == bound + [view] + rest;
      }
    }
  }

  lemma ProgressDone(start: seq<ParameterView>, bound: seq<ParameterView>,
                     patterns: seq<string>, segments: seq<string>,
                     allPatterns: seq<string>, allSegments: seq<string>)
    requires Progress(start, bound, patterns, segments, allPatterns, allSegments)
    requires |patterns| == 0 || |segments| == 0
    ensures SegmentsMatch(allPatterns, allSegments) <==> |patterns| == |segments|
    ensures |patterns| == |segments| ==>
              bound == start + Bindings(allPatterns, allSegments) && |bound| == |start| + NamedCount(allPatterns)
  {
    assert bound + [] == bound;
  }

  /** The index loop over pattern and path; it leaves the parameters half filled when it fails. */
  method Match(pattern: string, path: string, parameters: RouteParameters) returns (matched: bool)
    requires |pattern| > 0
    requires parameters.Valid()
    modifies parameters`count, parameters.values
    ensures parameters.Valid()
    ensures matched <==>
            && PathShaped(path)
            && SegmentsMatch(Segments(pattern), Segments(path))
            && |old(parameters.Contents())| + NamedCount(Segments(pattern)) <= MAX_ROUTE_PARAMETERS
    ensures matched ==> parameters.Contents() ==
                        old(parameters.Contents()) + Bindings(Segments(pattern), Segments(path))
  {
    hide Split, Find, NamedCount, Bindings, SegmentsMatch, Progress;
    if path == "" || path[0] != '/' {
      return false;
    }
    if |path| > 1 && path[|path| - 1] == '/' {
      return false;
    }
    ghost var start := parameters.Contents();
    ghost var bound := start;
    ghost var patterns, segments := Segments(pattern), Segments(path);
    ProgressStart(start, Segments(pattern), Segments(path));
    var patternPosition, pathPosition := 1, 1;
    while true
      invariant 1 <= patternPosition <= |pattern| && 1 <= pathPosition <= |path|
      invariant patterns == Split(pattern, '/', patternPosition)
      invariant segments == Split(path, '/', pathPosition)
      invariant parameters.Valid() && parameters.Contents() == bound
      invariant Progress(start, bound, patterns, segments, Segments(pattern), Segments(path))
      decreases |pattern| - patternPosition
    {
      var patternSeparator := Find(pattern, '/', patternPosition);
      var pathSeparator := Find(path, '/', pathPosition);
      var patternEnd := if patternSeparator.None? then |pattern| else patternSeparator.value;
      var pathEnd := if pathSeparator.None? then |path| else pathSeparator.value;
      var patternSegment := pattern[patternPosition..patternEnd];
      var pathSegment := path[pathPosition..pathEnd];
      SplitStep(pattern, '/', patternPosition);
      SplitStep(path, '/', pathPosition);
      ProgressStep(start, bound, patterns, segments, Segments(pattern), Segments(path));

      if (patternSegment == "") != (pathSegment == "") {
        return false;
      }
      if patternSegment != "" && patternSegment[0] == ':' {
        if pathSegment == "" {
          return false;
        }
        var added := parameters.Add(patternSegment[1..], pathSegment);
        if !added {
          return false;
        }
        bound := parameters.Contents();
      } else if patternSegment != pathSegment {
        return false;
      }
      patterns, segments := patterns[1..], segments[1..];
      var patternDone, pathDone := patternSeparator.None?, pathSeparator.None?;
      if patternDone || pathDone {
        ProgressDone(start, bound, patterns, segments, Segments(pattern), Segments(path));
        return patternDone && pathDone;
      }
      patternPosition := patternSeparator.value + 1;
      pathPosition := pathSeparator.value + 1;
    }
  }

  // ---------------------------------------------------------------- analysis meets matching

  lemma {:induction false} BindingsCount(patterns: seq<string>, segments: seq<string>)
    requires SegmentsMatch(patterns, segments)
    ensures |Bindings(patterns, segments)| == NamedCount(patterns)
  {
    if |patterns| > 0 {
      BindingsCount(patterns[1..], segments[1..]);
    }
  }

  function ValueLength(parameters: seq<ParameterView>): nat {
    if |parameters| == 0 then 0 else |parameters[0].value| + ValueLength(parameters[1..])
  }

  lemma {:induction false} SegmentLengths(patterns: seq<string>, segments: seq<string>)
    requires SegmentsMatch(patterns, segments)
    ensures TotalLength(segments) == LiteralCount(patterns) + ValueLength(Bindings(patterns, segments))
  {
    if |patterns| > 0 {
      SegmentLengths(patterns[1..], segments[1..]);
      assert SegmentAccepts(patterns[0], segments[0]);
      var rest := Bindings(patterns[1..], segments[1..]);
      if Named(patterns[0]) {
        assert Bindings(patterns, segments)[1..] == rest;
      } else {
        assert Bindings(patterns, segments) == rest;
      }
    }
  }

  /** A registered pattern never meets the trailing-slash guard or the capacity limit:
      what the loop decides is segment agreement and nothing else. */
  lemma RegisteredMatchIsSegmentMatch(pattern: string, path: string)
    requires Registrable(pattern)
    ensures Matches(pattern, path) <==>
            && PathShaped(path)
            && SegmentsMatch(Segments(pattern), Segments(path))
            && NamedCount(Segments(pattern)) <= MAX_ROUTE_PARAMETERS
  {
    if Matches(pattern, path) && |path| > 1 && path[|path| - 1] == '/' {
      SplitTrailing(path, '/', 1);
    }
  }

  /** What registration counted is what a match binds, and the lengths add up to the path. */
  lemma MatchAccounting(pattern: string, path: string)
    requires Registrable(pattern) && Matches(pattern, path)
    ensures var bound := Bindings(Segments(pattern), Segments(path));
            && |bound| == NamedCount(Segments(pattern)) <= MAX_ROUTE_PARAMETERS
            && |path| == LiteralCount(Segments(pattern)) + ValueLength(bound) + |Segments(pattern)|
  {
    BindingsCount(Segments(pattern), Segments(path));
    SegmentLengths(Segments(pattern), Segments(path));
    SplitLength(path, '/', 1);
  }

  lemma {:induction false} NoneNamed(segments: seq<string>, k: nat)
    requires NamedCount(segments) == 0 && k < |segments|
    ensures !Named(segments[k])
  {
    if k > 0 {
      NoneNamed(segments[1..], k - 1);
    }
  }

  /** Without named segments a match is string equality. */
  lemma LiteralMatchIsEquality(pattern: string, path: string)
    requires Registrable(pattern) && NamedCount(Segments(pattern)) == 0
    ensures Matches(pattern, path) <==> pattern == path
  {
    var patterns := Segments(pattern);
    forall k | 0 <= k < |patterns| ensures !Named(patterns[k]) {
      NoneNamed(patterns, k);
    }
    if Matches(pattern, path) {
      var segments := Segments(path);
      assert forall k :: 0 <= k < |patterns| ==> SegmentAccepts(patterns[k], segments[k]) && patterns[k] == segments[k];
      assert patterns == segments;
      JoinSplit(pattern, '/', 1);
      JoinSplit(path, '/', 1);
      assert pattern == ['/'] + pattern[1..] && path == ['/'] + path[1..];
    }
  }

  lemma {:induction false} BindingsNone(patterns: seq<string>, segments: seq<string>)
    requires NamedCount(patterns) == 0
    ensures Bindings(patterns, segments) == []
  {
    if |patterns| > 0 && |segments| > 0 {
      BindingsNone(patterns[1..], segments[1..]);
    }
  }

  // ---------------------------------------------------------------- filling a pattern in

  /** The pattern's segments with the values of its parameters in place of its names. */
  function Filled(patterns: seq<string>, parameters: seq<ParameterView>): seq<string> {
    if |patterns| == 0 then []
    else if !Named(patterns[0]) then [patterns[0]] + Filled(patterns[1..], parameters)
    else if |parameters| == 0 then []
    else [parameters[0].value] + Filled(patterns[1..], parameters[1..])
  }

  /** The names a pattern gives, without their colons. */
  function Names(patterns: seq<string>): seq<string> {
    if |patterns| == 0 then []
    else if Named(patterns[0]) then [patterns[0][1..]] + Names(patterns[1..])
    else Names(patterns[1..])
  }

  function NamesOf(parameters: seq<ParameterView>): seq<string> {
    seq(|parameters|, i requires 0 <= i < |parameters| => parameters[i].name)
  }

  lemma {:induction false} FilledSegments(patterns: seq<string>, segments: seq<string>)
    requires SegmentsMatch(patterns, segments)
    ensures Filled(patterns, Bindings(patterns, segments)) == segments
    ensures NamesOf(Bindings(patterns, segments)) == Names(patterns)
  {
    if |patterns| > 0 {
      FilledSegments(patterns[1..], segments[1..]);
      assert SegmentAccepts(patterns[0], segments[0]);
      var rest := Bindings(patterns[1..], segments[1..]);
      if Named(patterns[0]) {
        assert Bindings(patterns, segments)[1..] == rest;
      } else {
        assert Bindings(patterns, segments) == rest;
      }
      assert segments == [segments[0]] + segments[1..];
    }
  }

  /** Filling the parameters of a match into the pattern gives the path back, and they carry the
      pattern's names in order. */
  lemma MatchFillsPattern(pattern: string, path: string)
    requires |pattern| > 0 && Matches(pattern, path)
    ensures var bound := Bindings(Segments(pattern), Segments(path));
            && ['/'] + Join(Filled(Segments(pattern), bound), '/') == path
            && NamesOf(bound) == Names(Segments(pattern))
  {
    FilledSegments(Segments(pattern), Segments(path));
    JoinSplit(path, '/', 1);
    assert path == ['/'] + path[1..];
  }
}
