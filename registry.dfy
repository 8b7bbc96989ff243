/**
 * The registry loader of GitGraphServer (parseXmlConfigFile).
 *
 * The XML document is taken as already parsed: each `api` element is an ApiNode
 * holding the text contents of its `name`, `output` and `script` descendants in
 * document order, and its `input` descendants as (key attribute, text) pairs.
 * The loader turns that sequence into the registry, one Api per `api` element.
 */
module Registry {
  import opened Wrappers

  /** An `input` element: its `key` attribute ("" when absent) and its text content. */
  datatype InputNode = InputNode(key: string, text: string)

  /** One `api` element of the configuration document, already parsed. */
  datatype ApiNode = ApiNode(
    names: seq<string>,
    outputs: seq<string>,
    scripts: seq<string>,
    inputs: seq<InputNode>)

  /**
   * A KZRestfulApi record. A field whose element is absent from the document
   * stays a null reference in the source, hence the Options.
   */
  datatype Api = Api(
    name: Option<string>,
    inputs: map<string, string>,
    output: Option<string>,
    script: Option<string>)

  /** Java's String.trim strips every character at or below U+0020. */
  predicate IsTrimmable(c: char) {
    c <= ' '
  }

  /** Strips leading trimmable characters. */
  function TrimStart(s: string): (r: string)
  {
    if s != [] && IsTrimmable(s[0]) then TrimStart(s[1..]) else s
  }

  /** Strips trailing trimmable characters. */
  function TrimEnd(s: string): (r: string)
  {
    if s != [] && IsTrimmable(s[|s| - 1]) then TrimEnd(s[..|s| - 1]) else s
  }

  /** Java's String.trim: leading, then trailing trimmable characters removed. */
  function Trim(s: string): (r: string)
  {
    TrimEnd(TrimStart(s))
  }

  /** TrimStart cuts a run of trimmable characters off the front and nothing else. */
  lemma {:induction false} TrimStartSuffix(s: string)
    ensures |TrimStart(s)| <= |s| && TrimStart(s) == s[|s| - |TrimStart(s)|..]
    ensures forall k :: 0 <= k < |s| - |TrimStart(s)| ==> IsTrimmable(s[k])
    ensures TrimStart(s) != [] ==> !IsTrimmable(TrimStart(s)[0])
  {
    if s != [] && IsTrimmable(s[0]) {
      var tail := s[1..];
      TrimStartSuffix(tail);
      var r := TrimStart(tail);
      assert TrimStart(s) == r;
      assert r == s[|s| - |r|..];
      forall k | 0 <= k < |s| - |r| ensures IsTrimmable(s[k]) {
        if k > 0 {
          assert s[k] == tail[k - 1];
        }
      }
    }
  }

  /** TrimEnd cuts a run of trimmable characters off the back and nothing else. */
  lemma {:induction false} TrimEndPrefix(s: string)
    ensures |TrimEnd(s)| <= |s| && TrimEnd(s) == s[..|TrimEnd(s)|]
    ensures forall k :: |TrimEnd(s)| <= k < |s| ==> IsTrimmable(s[k])
    ensures TrimEnd(s) != [] ==> !IsTrimmable(TrimEnd(s)[|TrimEnd(s)| - 1])
  {
    if s != [] && IsTrimmable(s[|s| - 1]) {
      var front := s[..|s| - 1];
      TrimEndPrefix(front);
      var r := TrimEnd(front);
      assert TrimEnd(s) == r;
      assert r == s[..|r|];
      forall k | |r| <= k < |s| ensures IsTrimmable(s[k]) {
        if k < |s| - 1 {
          assert s[k] == front[k];
        }
      }
    }
  }

  /**
   * Trim(s) is the slice of s left once the trimmable characters at both ends
   * are cut off: what is cut is trimmable, and the result neither starts nor
   * ends with a trimmable character.
   */
  lemma TrimSlice(s: string)
    ensures |TrimStart(s)| <= |s|
    ensures var i := |s| - |TrimStart(s)|;
      i + |Trim(s)| <= |s| && Trim(s) == s[i..i + |Trim(s)|]
      && (forall k :: 0 <= k < i ==> IsTrimmable(s[k]))
      && (forall k :: i + |Trim(s)| <= k < |s| ==> IsTrimmable(s[k]))
    ensures Trim(s) != [] ==> !IsTrimmable(Trim(s)[0]) && !IsTrimmable(Trim(s)[|Trim(s)| - 1])
  {
    var t := TrimStart(s);
    TrimStartSuffix(s);
    TrimEndPrefix(t);
    var i := |s| - |t|;
    forall k | i + |Trim(s)| <= k < |s| ensures IsTrimmable(s[k]) {
      assert s[k] == t[k - i];
    }
  }

  /** Trimming twice is trimming once. */
  lemma TrimIdempotent(s: string)
    ensures Trim(Trim(s)) == Trim(s)
  {
    TrimSlice(s);
    var r := Trim(s);
    if r != [] {
      assert TrimStart(r) == r;
      assert TrimEnd(r) == r;
    }
  }

  /** The text of the first element of a kind, trimmed; None (null) when there is none. */
  function FirstText(texts: seq<string>): (r: Option<string>)
  {
    if |texts| > 0 then Some(Trim(texts[0])) else None
  }

  /** The input map built by putting each input's trimmed text under its key, in order. */
  function InputsMap(inputs: seq<InputNode>): (m: map<string, string>)
  {
    if inputs == [] then map[]
    else
      var last := inputs[|inputs| - 1];
      InputsMap(inputs[..|inputs| - 1])[last.key := Trim(last.text)]
  }

  /** Input j is the last one carrying its key. */
  predicate IsLastOfKey(inputs: seq<InputNode>, j: int)
    requires 0 <= j < |inputs|
  {
    forall j' :: j < j' < |inputs| ==> inputs[j'].key != inputs[j].key
  }

  /** The Api record the loader builds from one `api` element. */
  function BuildApi(node: ApiNode): (api: Api)
  {
    Api(FirstText(node.names), InputsMap(node.inputs), FirstText(node.outputs), FirstText(node.scripts))
  }

  /** An input map's keys are exactly the `key` attributes of the inputs. */
  lemma {:induction false} InputsMapKeys(inputs: seq<InputNode>)
    ensures forall key :: key in InputsMap(inputs) <==>
      exists j :: 0 <= j < |inputs| && inputs[j].key == key
  {
    if inputs != [] {
      var n := |inputs| - 1;
      var front := inputs[..n];
      InputsMapKeys(front);
      forall key | key in InputsMap(inputs)
        ensures exists j :: 0 <= j < |inputs| && inputs[j].key == key
      {
        if key != inputs[n].key {
          assert InputsMap(inputs) == InputsMap(front)[inputs[n].key := Trim(inputs[n].text)];
          assert key in InputsMap(front);
          var j :| 0 <= j < |front| && front[j].key == key;
          assert inputs[j].key == key;
        }
      }
      forall key | exists j :: 0 <= j < |inputs| && inputs[j].key == key
        ensures key in InputsMap(inputs)
      {
        var j :| 0 <= j < |inputs| && inputs[j].key == key;
        if j < n {
          assert front[j].key == key;
        }
      }
    }
  }

  /** When a key repeats, the trimmed text of its last occurrence is the one kept. */
  lemma {:induction false} InputsMapLastWins(inputs: seq<InputNode>, j: int)
    requires 0 <= j < |inputs| && IsLastOfKey(inputs, j)
    ensures inputs[j].key in InputsMap(inputs)
    ensures InputsMap(inputs)[inputs[j].key] == Trim(inputs[j].text)
  {
    var n := |inputs| - 1;
    var front := inputs[..n];
    var last := inputs[n];
    assert InputsMap(inputs) == InputsMap(front)[last.key := Trim(last.text)];
    if j < n {
      assert last.key != inputs[j].key;
      assert front[j] == inputs[j];
      assert IsLastOfKey(front, j) by {
        forall j' | j < j' < |front| ensures front[j'].key != front[j].key {
          assert front[j'] == inputs[j'];
        }
      }
      InputsMapLastWins(front, j);
    }
  }

  /**
   * The loader: one Api per `api` element, in document order; missing
   * `name`, `output` or `script` elements leave the field unset.
   */
  method ParseConfig(doc: seq<ApiNode>) returns (apis: seq<Api>)
    ensures |apis| == |doc|
    ensures forall i :: 0 <= i < |doc| ==> apis[i] == BuildApi(doc[i])
  {
    apis := [];
    var i := 0;
    while i < |doc|
      invariant 0 <= i <= |doc|
      invariant |apis| == i
      invariant forall k :: 0 <= k < i ==> apis[k] == BuildApi(doc[k])
    {
      var node := doc[i];
      var name := None;
      if |node.names| > 0 {
        name := Some(Trim(node.names[0]));
      }
      var output := None;
      if |node.outputs| > 0 {
        output := Some(Trim(node.outputs[0]));
      }
      var script := None;
      if |node.scripts| > 0 {
        script := Some(Trim(node.scripts[0]));
      }
      var inputs := map[];
      var j := 0;
      while j < |node.inputs|
        invariant 0 <= j <= |node.inputs|
        invariant inputs == InputsMap(node.inputs[..j])
      {
        var input := node.inputs[j];
        assert node.inputs[..j + 1][..j] == node.inputs[..j];
        inputs := inputs[input.key := Trim(input.text)];
        j := j + 1;
      }
      assert node.inputs[..j] == node.inputs;
      apis := apis + [Api(name, inputs, output, script)];
      i := i + 1;
    }
  }
}
