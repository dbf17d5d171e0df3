/** `convert_text_content_to_str`: the text of every `TextContent` inside
    dicts and lists takes the place of the object. */
module Content {
  import opened Outcomes
  import opened PyValues

  /** The values a tool result is built from. Dicts keep their keys in
      insertion order; tuples and every other object are opaque to the
      conversion. */
  datatype PyData =
    | TextContent(text: string)
    | Dict(entries: seq<(Value, PyData)>)
    | List(items: seq<PyData>)
    | Tuple(items: seq<PyData>)
    | Atom(value: Value)

  function Convert(d: PyData): (r: PyData)
    ensures Converted(r)
    decreases d
  {
    match d
    case TextContent(t) => Atom(VStr(t))
    case Dict(es) =>
      Dict(seq(|es|, i requires 0 <= i < |es| => assert es[i] in es; (es[i].0, Convert(es[i].1))))
    case List(xs) =>
      List(seq(|xs|, i requires 0 <= i < |xs| => Convert(xs[i])))
    case _ => d
  }

  /** No `TextContent` is left where the conversion looks: directly, or
      inside dict values and list items, at any depth. */
  predicate Converted(d: PyData)
    decreases d
  {
    match d
    case TextContent(_) => false
    case Dict(es) => forall i :: 0 <= i < |es| ==> assert es[i] in es; Converted(es[i].1)
    case List(xs) => forall i :: 0 <= i < |xs| ==> Converted(xs[i])
    case _ => true
  }

  /** The conversion keeps the shape: a dict keeps its keys in order, a list
      its length, and everything else but a `TextContent` is returned as
      it is. */
  lemma ConvertShape(d: PyData)
    ensures d.TextContent? ==> Convert(d) == Atom(VStr(d.text))
    ensures d.Dict? ==>
      (&& Convert(d).Dict? && |Convert(d).entries| == |d.entries|
       && forall i :: 0 <= i < |d.entries| ==>
            Convert(d).entries[i].0 == d.entries[i].0 && Convert(d).entries[i].1 == Convert(d.entries[i].1))
    ensures d.List? ==>
      (&& Convert(d).List? && |Convert(d).items| == |d.items|
       && forall i :: 0 <= i < |d.items| ==> Convert(d).items[i] == Convert(d.items[i]))
    ensures d.Tuple? || d.Atom? ==> Convert(d) == d
  {
  }

  /** What is already converted is left alone. */
  lemma {:induction false} ConvertedFixed(d: PyData)
    requires Converted(d)
    ensures Convert(d) == d
    decreases d
  {
    match d
    case Dict(es) =>
      forall i | 0 <= i < |es| ensures Convert(d).entries[i] == es[i] {
        assert es[i] in es;
        ConvertedFixed(es[i].1);
      }
    case List(xs) =>
      forall i | 0 <= i < |xs| ensures Convert(d).items[i] == xs[i] {
        ConvertedFixed(xs[i]);
      }
    case _ =>
  }

  /** Converting twice is converting once. */
  lemma ConvertIdempotent(d: PyData)
    ensures Convert(Convert(d)) == Convert(d)
  {
    ConvertedFixed(Convert(d));
  }

  /** The value reached from `d` by `path`: each step takes the value of the
      dict entry, or the list item, at that position. Tuples and other
      objects are not stepped into. */
  function At(d: PyData, path: seq<nat>): Option<PyData>
    decreases |path|
  {
    if path == [] then Some(d)
    else match d
      case Dict(es) => if path[0] < |es| then At(es[path[0]].1, path[1..]) else None
      case List(xs) => if path[0] < |xs| then At(xs[path[0]], path[1..]) else None
      case _ => None
  }

  /** The conversion keeps every position: a path reaches a value in the
      result exactly when it reaches one in the input, and what it reaches
      is the conversion of what it reached; so a `TextContent(t)` at any
      depth becomes the string `t` at the same place. */
  lemma {:induction false} ConvertAt(d: PyData, path: seq<nat>)
    ensures At(Convert(d), path).Some? <==> At(d, path).Some?
    ensures At(d, path).Some? ==> At(Convert(d), path) == Some(Convert(At(d, path).value))
    ensures At(d, path).Some? && At(d, path).value.TextContent? ==>
      At(Convert(d), path) == Some(Atom(VStr(At(d, path).value.text)))
    decreases |path|
  {
    if path != [] {
      ConvertShape(d);
      match d
      case Dict(es) =>
        if path[0] < |es| {
          ConvertAt(es[path[0]].1, path[1..]);
        }
      case List(xs) =>
        if path[0] < |xs| {
          ConvertAt(xs[path[0]], path[1..]);
        }
      case _ =>
    }
  }

  /** A `TextContent` inside a tuple is not reached. */
  lemma TupleUntouched(t: string)
    ensures Convert(Tuple([TextContent(t)])) == Tuple([TextContent(t)])
  {
  }
}
