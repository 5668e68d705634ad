/** The query part of a URL: `key=value` fields joined by '&'. get_sref.py
    writes its request URL as one literal template; here the same text is
    produced from the list of its fields, and a reader splits it back. */
module Query {
  import opened Text

  datatype Field = Field(key: string, value: string)

  function Render(f: Field): string {
    f.key + "=" + f.value
  }

  /** The fields rendered and joined by '&'. */
  function QueryString(fields: seq<Field>): string
    decreases |fields|
  {
    if |fields| == 0 then []
    else if |fields| == 1 then Render(fields[0])
    else Render(fields[0]) + "&" + QueryString(fields[1..])
  }

  /** A field read back from `key=value`; text without '=' is a key with an empty value. */
  function ParseField(s: string): Field {
    match SplitFirst(s, '=')
    case None => Field(s, [])
    case Some(p) => Field(p.0, p.1)
  }

  function ParseFields(parts: seq<string>): seq<Field>
    decreases |parts|
  {
    if parts == [] then [] else [ParseField(parts[0])] + ParseFields(parts[1..])
  }

  /** The query cut at every '&', each part read as a field. */
  function ParseQuery(q: string): seq<Field> {
    ParseFields(Split(q, '&'))
  }

  /** A field that survives the query syntax: no '&' anywhere, no '=' in its key. */
  predicate Plain(f: Field) {
    '&' !in f.key && '=' !in f.key && '&' !in f.value
  }

  lemma ParseRender(f: Field)
    requires '=' !in f.key
    ensures ParseField(Render(f)) == f
  {
    SplitFirstAt(f.key, f.value, '=');
    assert Render(f) == f.key + ['='] + f.value;
  }

  lemma RenderPlain(f: Field)
    requires Plain(f)
    ensures '&' !in Render(f)
  {
  }

  /** Reading a non-empty query string gives back exactly its fields, in order. */
  lemma {:induction false} QueryRoundTrip(fields: seq<Field>)
    requires |fields| >= 1
    requires forall i :: 0 <= i < |fields| ==> Plain(fields[i])
    ensures ParseQuery(QueryString(fields)) == fields
    decreases |fields|
  {
    var head := Render(fields[0]);
    RenderPlain(fields[0]);
    ParseRender(fields[0]);
    if |fields| == 1 {
      assert head + [] == head;
      SplitPlain(head, [], '&');
      assert Split([], '&') == [[]];
      assert Split(head, '&') == [head];
      assert ParseFields([head]) == [ParseField(head)] + ParseFields([]);
      assert [fields[0]] == fields;
    } else {
      var rest := QueryString(fields[1..]);
      assert QueryString(fields) == head + ("&" + rest);
      SplitPlain(head, "&" + rest, '&');
      assert ("&" + rest)[1..] == rest;
      var tail := Split("&" + rest, '&');
      assert tail == [[]] + Split(rest, '&');
      assert Split(QueryString(fields), '&') == [head] + Split(rest, '&') by {
        assert head + tail[0] == head;
      }
      QueryRoundTrip(fields[1..]);
      assert ([head] + Split(rest, '&'))[1..] == Split(rest, '&');
      assert [fields[0]] + fields[1..] == fields;
    }
  }
}
