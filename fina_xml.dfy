/** The XML side of the fiscalisation client (fina.py:356-409): the
    confirmation-code (JIR) search in the authority's SOAP response, and
    the element-to-dictionary conversion that feeds the YAML audit copies.
    A parsed document is an abstract `Element` tree; parsing itself is a
    parameter of the callers. */
module FinaXml {
  import opened Wrappers
  import opened Strings

  /** A parsed element as lxml presents it: the tag in Clark notation
      (`{namespace}local`), the element's text (None when it has none) and
      its child elements in document order. */
  datatype Element = Element(tag: string, text: Option<string>, children: seq<Element>)

  const SoapBodyTag: string := "{http://schemas.xmlsoap.org/soap/envelope/}Body"

  // ------------------------------------------------------------ local names

  /** The tag without its namespace: the characters after the last `}`. */
  function LocalName(tag: string): string
    decreases |tag|
  {
    if tag == [] || tag[|tag| - 1] == '}' then []
    else LocalName(tag[..|tag| - 1]) + [tag[|tag| - 1]]
  }

  /** The local name has no `}`, ends the tag, and is preceded by `}`
      unless it is the whole tag. */
  lemma {:induction false} LocalNameShape(tag: string)
    ensures var r := LocalName(tag);
      && '}' !in r
      && EndsWith(tag, r)
      && (|r| < |tag| ==> tag[|tag| - |r| - 1] == '}')
    decreases |tag|
  {
    if tag != [] && tag[|tag| - 1] != '}' {
      var front := tag[..|tag| - 1];
      var c := tag[|tag| - 1];
      LocalNameShape(front);
      var rf := LocalName(front);
      var r := LocalName(tag);
      assert r == rf + [c];
      assert front[|front| - |rf|..] == rf;
      assert tag == front + [c];
      assert tag[|tag| - |r|..] == front[|front| - |rf|..] + [c];
      assert forall i :: 0 <= i < |r| ==> r[i] == if i < |rf| then rf[i] else c;
      if |r| < |tag| {
        assert tag[|tag| - |r| - 1] == front[|front| - |rf| - 1];
      }
    }
  }

  /** The local name is `tag.split("}")[-1]`, the last piece of the split. */
  lemma LocalNameIsLastPiece(tag: string)
    ensures var parts := Split(tag, '}'); LocalName(tag) == parts[|parts| - 1]
  {
    LocalNameShape(tag);
    var r := LocalName(tag);
    if |r| == |tag| {
      assert r == tag;
      SplitNoSeparator(tag, '}');
    } else {
      var a := tag[..|tag| - |r| - 1];
      assert tag == a + ['}'] + r;
      SplitConcat(a, '}', r);
      SplitNoSeparator(r, '}');
    }
  }

  /** A tag in Clark notation loses exactly its namespace part. */
  lemma LocalNameOfQualified(ns: string, local: string)
    requires '}' !in local
    ensures LocalName("{" + ns + "}" + local) == local
  {
    LocalNameIsLastPiece("{" + ns + "}" + local);
    assert "{" + ns + "}" + local == ("{" + ns) + ['}'] + local;
    SplitConcat("{" + ns, '}', local);
    SplitNoSeparator(local, '}');
  }

  /** A tag without a namespace is its own local name. */
  lemma LocalNameOfPlain(tag: string)
    requires '}' !in tag
    ensures LocalName(tag) == tag
  {
    LocalNameIsLastPiece(tag);
    SplitNoSeparator(tag, '}');
  }

  // ------------------------------------------------------- document order

  function Concat(ss: seq<seq<Element>>): seq<Element>
    decreases |ss|
  {
    if ss == [] then [] else ss[0] + Concat(ss[1..])
  }

  /** The element and all its descendants in document order: what
      `elem.iter()` yields. */
  function Preorder(e: Element): (r: seq<Element>)
    ensures |r| >= 1 && r[0] == e
    decreases e
  {
    [e] + Concat(seq(|e.children|, i requires 0 <= i < |e.children| => Preorder(e.children[i])))
  }

  /** Index of the first node satisfying `p`, searching front to back. */
  function FirstWhere(nodes: seq<Element>, p: Element -> bool): (r: Option<nat>)
    ensures r.Some? ==> r.value < |nodes| && p(nodes[r.value])
    ensures r.Some? ==> forall k :: 0 <= k < r.value ==> !p(nodes[k])
    ensures r.None? ==> forall k :: 0 <= k < |nodes| ==> !p(nodes[k])
    decreases |nodes|
  {
    if nodes == [] then None
    else if p(nodes[0]) then Some(0)
    else match FirstWhere(nodes[1..], p)
      case None => None
      case Some(k) => Some(k + 1)
  }

  predicate IsBody(e: Element) { e.tag == SoapBodyTag }

  predicate IsJir(e: Element) { EndsWith(e.tag, "Jir") }

  /** `root.find(".//{soap-envelope}Body")`: the first descendant (the root
      itself excluded) in document order whose tag is the SOAP Body. */
  function FindBody(root: Element): (r: Option<Element>)
    ensures r.Some? ==> IsBody(r.value)
  {
    var below := Preorder(root)[1..];
    match FirstWhere(below, IsBody)
    case None => None
    case Some(k) => Some(below[k])
  }

  /** The confirmation code the response carries, as `extract_jir`
      defines it: the text of the first element, in document order from the
      Body (the Body included), whose tag ends with "Jir". None when there
      is no Body, no such element, or that element has no text. */
  function JirOf(root: Element): Option<string>
  {
    match FindBody(root)
    case None => None
    case Some(body) =>
      var nodes := Preorder(body);
      match FirstWhere(nodes, IsJir)
      case None => None
      case Some(k) => nodes[k].text
  }

  /** `extract_jir`: the search loop with its early return. */
  method ExtractJir(root: Element) returns (jir: Option<string>)
    ensures jir == JirOf(root)
    ensures jir.Some? ==> exists body :: FindBody(root) == Some(body) && exists k :: 0 <= k < |Preorder(body)| && IsJir(Preorder(body)[k]) && Preorder(body)[k].text == jir
  {
    var body := FindBody(root);
    if body.None? {
      return None;
    }
    var nodes := Preorder(body.value);
    var i := 0;
    while i < |nodes|
      invariant 0 <= i <= |nodes|
      invariant forall k :: 0 <= k < i ==> !IsJir(nodes[k])
    {
      if IsJir(nodes[i]) {
        assert FirstWhere(nodes, IsJir) == Some(i);
        return nodes[i].text;
      }
      i := i + 1;
    }
    return None;
  }

  /** A response whose Body holds no element ending in "Jir" yields no
      confirmation code. */
  lemma NoJirElementMeansNone(root: Element, body: Element)
    requires FindBody(root) == Some(body)
    requires forall k :: 0 <= k < |Preorder(body)| ==> !IsJir(Preorder(body)[k])
    ensures JirOf(root) == None
  {
  }

  // ----------------------------------------------- element_to_dict values

  /** What `element_to_dict` produces: a leaf's text (None becomes `Null`)
      or an insertion-ordered dictionary keyed by local names. */
  datatype Value = Null | Text(s: string) | Dict(entries: seq<Entry>)
  datatype Entry = Entry(key: string, value: Value)

  function Lookup(d: seq<Entry>, k: string): Option<Value>
    decreases |d|
  {
    if d == [] then None else if d[0].key == k then Some(d[0].value) else Lookup(d[1..], k)
  }

  predicate HasKey(d: seq<Entry>, k: string) {
    exists i :: 0 <= i < |d| && d[i].key == k
  }

  lemma HasKeyCons(d: seq<Entry>)
    requires d != []
    ensures forall k :: HasKey(d, k) <==> d[0].key == k || HasKey(d[1..], k)
  {
    forall k | HasKey(d, k) ensures d[0].key == k || HasKey(d[1..], k) {
      var i :| 0 <= i < |d| && d[i].key == k;
      if i > 0 { assert d[1..][i - 1].key == k; }
    }
    forall k | HasKey(d[1..], k) ensures HasKey(d, k) {
      var i :| 0 <= i < |d[1..]| && d[1..][i].key == k;
      assert d[i + 1].key == k;
    }
  }

  /** `result[k] = v` on a Python dict: an existing key keeps its place and
      takes the new value, a new key is appended. */
  function Put(d: seq<Entry>, k: string, v: Value): (r: seq<Entry>)
    ensures Lookup(r, k) == Some(v)
    ensures forall k' :: k' != k ==> Lookup(r, k') == Lookup(d, k')
    ensures forall k' :: HasKey(r, k') <==> HasKey(d, k') || k' == k
    decreases |d|
  {
    if d == [] then
      var r := [Entry(k, v)];
      assert forall k' :: HasKey(r, k') ==> r[0].key == k';
      r
    else if d[0].key == k then
      var r := [Entry(k, v)] + d[1..];
      HasKeyCons(d);
      HasKeyCons(r);
      assert r[1..] == d[1..];
      r
    else
      var r := [d[0]] + Put(d[1..], k, v);
      HasKeyCons(d);
      HasKeyCons(r);
      assert r[1..] == Put(d[1..], k, v);
      r
  }

  function LeafValue(text: Option<string>): Value {
    match text
    case None => Null
    case Some(s) => Text(s)
  }

  /** `element_to_dict` of `xml_to_yaml`: a leaf maps to its text, any
      other element to the dictionary built from its children. */
  function ElementToValue(e: Element): Value
    decreases e, 1
  {
    if e.children == [] then LeafValue(e.text) else Dict(ChildEntries(e, |e.children|))
  }

  /** The dictionary after the loop has visited the first `n` children. */
  function ChildEntries(e: Element, n: nat): seq<Entry>
    requires n <= |e.children|
    decreases e, 0, n
  {
    if n == 0 then []
    else Put(ChildEntries(e, n - 1), LocalName(e.children[n - 1].tag), ElementToValue(e.children[n - 1]))
  }

  /** Index of the last of `cs` whose local name is `k`. */
  function LastNamed(cs: seq<Element>, k: string): (r: Option<nat>)
    ensures r.Some? ==> r.value < |cs|
    decreases |cs|
  {
    if cs == [] then None
    else if LocalName(cs[|cs| - 1].tag) == k then Some(|cs| - 1)
    else LastNamed(cs[..|cs| - 1], k)
  }

  /** The index found has local name `k` and no later child has it; none
      is found exactly when no child has it. */
  lemma {:induction false} LastNamedFindsLast(cs: seq<Element>, k: string)
    ensures var r := LastNamed(cs, k);
      && (r.Some? ==> LocalName(cs[r.value].tag) == k)
      && (r.Some? ==> forall j :: r.value < j < |cs| ==> LocalName(cs[j].tag) != k)
      && (r.None? ==> forall j :: 0 <= j < |cs| ==> LocalName(cs[j].tag) != k)
    decreases |cs|
  {
    if cs != [] && LocalName(cs[|cs| - 1].tag) != k {
      var front := cs[..|cs| - 1];
      LastNamedFindsLast(front, k);
      assert forall j :: 0 <= j < |front| ==> front[j] == cs[j];
    }
  }

  /** Later duplicate tags overwrite earlier ones: the entry for `k` holds
      the value of the LAST child whose local name is `k`, and there is no
      entry for a name no child has. */
  lemma {:induction false} ChildEntriesLastWins(e: Element, n: nat, k: string)
    requires n <= |e.children|
    ensures Lookup(ChildEntries(e, n), k) ==
      match LastNamed(e.children[..n], k)
      case None => None
      case Some(j) => Some(ElementToValue(e.children[j]))
    decreases n
  {
    if n > 0 {
      ChildEntriesLastWins(e, n - 1, k);
      assert e.children[..n][..n - 1] == e.children[..n - 1];
    }
  }

  /** `xml_to_yaml` before the YAML dump: one entry, the root's local name
      mapped to the root's value; None when the text did not parse (the
      function logs and returns None then). */
  function XmlToDict(parsed: Option<Element>): (r: Option<Value>)
    ensures parsed.None? <==> r.None?
    ensures parsed.Some? ==> r.value.Dict? && |r.value.entries| == 1
    ensures parsed.Some? ==> r.value.entries[0] == Entry(LocalName(parsed.value.tag), ElementToValue(parsed.value))
  {
    match parsed
    case None => None
    case Some(root) => Some(Dict([Entry(LocalName(root.tag), ElementToValue(root))]))
  }

  // ---------------------------------------- soap_response_to_yaml variant

  predicate IsSignature(e: Element) { EndsWith(e.tag, "Signature") }

  /** `element_to_dict` of `soap_response_to_yaml`; None stands for
      Python's None, which a signature element and a text-less leaf produce
      and the parent then leaves out. */
  function ResponseValue(e: Element): Option<Value>
    decreases e, 1
  {
    if IsSignature(e) then None
    else if e.children == [] then (if e.text.Some? then Some(Text(e.text.value)) else None)
    else Some(Dict(ResponseEntries(e, |e.children|)))
  }

  function ResponseEntries(e: Element, n: nat): seq<Entry>
    requires n <= |e.children|
    decreases e, 0, n
  {
    if n == 0 then []
    else
      var c := e.children[n - 1];
      match ResponseValue(c)
      case None => ResponseEntries(e, n - 1)
      case Some(v) => Put(ResponseEntries(e, n - 1), LocalName(c.tag), v)
  }

  /** No key at any depth names a signature element. */
  predicate SignatureFree(v: Value)
    decreases v
  {
    match v
    case Null => true
    case Text(_) => true
    case Dict(es) => forall i :: 0 <= i < |es| ==> !EndsWith(es[i].key, "Signature") && SignatureFree(es[i].value)
  }

  predicate EntriesSignatureFree(d: seq<Entry>) {
    forall i :: 0 <= i < |d| ==> !EndsWith(d[i].key, "Signature") && SignatureFree(d[i].value)
  }

  lemma SuffixOfSuffix(tag: string, local: string, suffix: string)
    requires EndsWith(tag, local) && EndsWith(local, suffix)
    ensures EndsWith(tag, suffix)
  {
    assert tag[|tag| - |suffix|..] == tag[|tag| - |local|..][|local| - |suffix|..];
  }

  /** The local name of a tag that does not end in "Signature" does not
      either. */
  lemma LocalNameKeepsNonSignature(tag: string)
    requires !EndsWith(tag, "Signature")
    ensures !EndsWith(LocalName(tag), "Signature")
  {
    LocalNameShape(tag);
    if EndsWith(LocalName(tag), "Signature") {
      SuffixOfSuffix(tag, LocalName(tag), "Signature");
    }
  }

  lemma PutSignatureFree(d: seq<Entry>, k: string, v: Value)
    requires EntriesSignatureFree(d)
    requires !EndsWith(k, "Signature") && SignatureFree(v)
    ensures EntriesSignatureFree(Put(d, k, v))
    decreases |d|
  {
    if d != [] && d[0].key != k {
      PutSignatureFree(d[1..], k, v);
    }
  }

  /** The response variant drops signature elements at every depth. */
  lemma {:induction false} ResponseValueSignatureFree(e: Element)
    ensures ResponseValue(e).Some? ==> SignatureFree(ResponseValue(e).value)
    decreases e, 1
  {
    if !IsSignature(e) && e.children != [] {
      ResponseEntriesSignatureFree(e, |e.children|);
      assert ResponseValue(e) == Some(Dict(ResponseEntries(e, |e.children|)));
    }
  }

  lemma {:induction false} ResponseEntriesSignatureFree(e: Element, n: nat)
    requires n <= |e.children|
    ensures EntriesSignatureFree(ResponseEntries(e, n))
    decreases e, 0, n
  {
    if n > 0 {
      var c := e.children[n - 1];
      ResponseEntriesSignatureFree(e, n - 1);
      ResponseValueSignatureFree(c);
      if ResponseValue(c).Some? {
        var local := LocalName(c.tag);
        LocalNameKeepsNonSignature(c.tag);
        PutSignatureFree(ResponseEntries(e, n - 1), local, ResponseValue(c).value);
      }
    }
  }

  datatype XmlError = NoSoapBody

  /** `soap_response_to_yaml` before the YAML dump: the first element of
      the Body under its local name; an error when the Body is missing or
      has no element. A main element that maps to Python's None is kept
      as `Null`. */
  function SoapResponseToDict(root: Element): (r: Result<Value, XmlError>)
    ensures r.Err? <==> FindBody(root).None? || FindBody(root).value.children == []
    ensures r.Ok? ==>
              && r.value.Dict? && |r.value.entries| == 1
              && r.value.entries[0].key == LocalName(FindBody(root).value.children[0].tag)
    ensures r.Ok? ==> SignatureFree(r.value.entries[0].value)
  {
    match FindBody(root)
    case None => Err(NoSoapBody)
    case Some(body) =>
      if body.children == [] then Err(NoSoapBody)
      else
        var main := body.children[0];
        ResponseValueSignatureFree(main);
        Ok(Dict([Entry(LocalName(main.tag), match ResponseValue(main) case None => Null case Some(v) => v)]))
  }
}
