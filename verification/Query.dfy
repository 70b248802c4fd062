/** HttpRequest::QueryValue: scanning a raw query string for one key. */
module Query {
  import opened WebTypes
  import opened Text

  // ---------------------------------------------------------------- specification

  /** The part of a pair before its first `=`, or the whole pair. */
  function KeyOf(pair: string): string {
    match Find(pair, '=', 0)
    case None => pair
    case Some(i) => pair[..i]
  }

  /** The part of a pair after its first `=`, or the empty view. */
  function ValueOf(pair: string): string {
    match Find(pair, '=', 0)
    case None => ""
    case Some(i) => pair[i + 1..]
  }

  /** The value of the first pair with the given key. */
  function Lookup(pairs: seq<string>, name: string): Option<string> {
    if |pairs| == 0 then None
    else if KeyOf(pairs[0]) == name then Some(ValueOf(pairs[0]))
    else Lookup(pairs[1..], name)
  }

  // ---------------------------------------------------------------- the loop

  method QueryValue(query: string, name: string) returns (value: Option<string>)
    ensures value == if name == "" then None else Lookup(Split(query, '&', 0), name)
  {
    hide Split, Find, Lookup;
    if name == "" {
      return None;
    }
    var position := 0;
    while position <= |query|
      invariant 0 <= position <= |query|
      invariant Lookup(Split(query, '&', 0), name) == Lookup(Split(query, '&', position), name)
    {
      var ampersand := Find(query, '&', position);
      var end := if ampersand.None? then |query| else ampersand.value;
      var pair := query[position..end];
      var equals := Find(pair, '=', 0);
      var key := if equals.None? then pair else pair[..equals.value];
      SplitStep(query, '&', position);
      LookupStep(Split(query, '&', position), name);
      if key == name {
        return Some(if equals.None? then "" else pair[equals.value + 1..]);
      }
      if ampersand.None? {
        break;
      }
      position := ampersand.value + 1;
    }
    return None;
  }

  lemma LookupStep(pairs: seq<string>, name: string)
    requires |pairs| > 0
    ensures Lookup(pairs, name) ==
            if KeyOf(pairs[0]) == name then Some(ValueOf(pairs[0])) else Lookup(pairs[1..], name)
    ensures |pairs| == 1 ==> Lookup(pairs[1..], name) == None
  {
  }

  // ---------------------------------------------------------------- rendering and its inverse

  /** A pair, or a key alone. */
  datatype Pair = Pair(key: string, value: string) | Flag(key: string)

  function Rendered(pair: Pair): string {
    match pair
    case Pair(key, value) => key + "=" + value
    case Flag(key) => key
  }

  /** What looking the pair up should give: a key alone has the empty value. */
  function ValueIn(pair: Pair): string {
    match pair
    case Pair(_, value) => value
    case Flag(_) => ""
  }

  function RenderedAll(pairs: seq<Pair>): seq<string> {
    seq(|pairs|, i requires 0 <= i < |pairs| => Rendered(pairs[i]))
  }

  function Render(pairs: seq<Pair>): string {
    Join(RenderedAll(pairs), '&')
  }

  /** Keys hold neither separator, values do not hold `&`. */
  predicate Renderable(pairs: seq<Pair>) {
    forall i :: 0 <= i < |pairs| ==>
      '=' !in pairs[i].key && '&' !in pairs[i].key && '&' !in ValueIn(pairs[i])
  }

  function FirstValue(pairs: seq<Pair>, name: string): Option<string> {
    if |pairs| == 0 then None
    else if pairs[0].key == name then Some(ValueIn(pairs[0]))
    else FirstValue(pairs[1..], name)
  }

  lemma RenderedParts(pair: Pair)
    requires '=' !in pair.key
    ensures KeyOf(Rendered(pair)) == pair.key && ValueOf(Rendered(pair)) == ValueIn(pair)
  {
    var text, at := Rendered(pair), |pair.key|;
    assert forall k :: 0 <= k < at ==> text[k] == pair.key[k];
    if pair.Pair? {
      assert text[at] == '=';
      assert Find(text, '=', 0) == Some(at);
      assert text[..at] == pair.key && text[at + 1..] == pair.value;
    } else {
      assert Find(text, '=', 0) == None;
    }
  }

  lemma {:induction false} LookupRendered(pairs: seq<Pair>, name: string)
    requires Renderable(pairs)
    ensures Lookup(RenderedAll(pairs), name) == FirstValue(pairs, name)
  {
    if |pairs| > 0 {
      RenderedParts(pairs[0]);
      LookupRendered(pairs[1..], name);
      assert RenderedAll(pairs)[1..] == RenderedAll(pairs[1..]);
    }
  }

  /** Looking a key up in a rendered list of pairs and keys finds the first with that key. */
  lemma QueryUndoesRendering(pairs: seq<Pair>, name: string)
    requires Renderable(pairs) && name != ""
    ensures Lookup(Split(Render(pairs), '&', 0), name) == FirstValue(pairs, name)
  {
    var parts, text := RenderedAll(pairs), Render(pairs);
    if |pairs| == 0 {
      assert Split(text, '&', 0) == [""];
      assert KeyOf("") == "";
    } else {
      forall p | p in parts ensures '&' !in p {
        var i :| 0 <= i < |parts| && parts[i] == p;
        assert p == Rendered(pairs[i]);
        assert p == pairs[i].key || p == pairs[i].key + "=" + ValueIn(pairs[i]);
      }
      assert text[0..] == text;
      SplitJoin(text, 0, parts, '&');
      LookupRendered(pairs, name);
    }
  }
}
