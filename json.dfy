/** The value `json.loads` produces, as far as the extractor looks at it,
    and the few Python behaviours of those values it depends on. The
    parser itself is not modelled: callers supply its outcome. */
module Json {
  import opened Text

  /** A decoded JSON document. Objects are Python dicts (key -> value);
      numbers are the integer ones. */
  datatype Value =
    | JNull
    | JBool(b: bool)
    | JNum(n: int)
    | JStr(s: string)
    | JArr(items: seq<Value>)
    | JObj(members: map<string, Value>)

  /** Outcome of `json.loads(body)`: a value, or `JSONDecodeError`. */
  datatype Parsed = Decoded(value: Value) | Malformed

  /** `m.get(key)`: the value under `key`, or `None` when it is absent. */
  function Get(m: map<string, Value>, key: string): (r: Option<Value>)
    ensures r.Some? <==> key in m
    ensures r.Some? ==> r.value == m[key]
  {
    if key in m then Some(m[key]) else None
  }

  datatype Option<T> = None | Some(value: T)

  /** Python's `type(v).__name__` for the value `json.loads` builds. */
  function TypeName(v: Value): string {
    match v
    case JNull => "NoneType"
    case JBool(_) => "bool"
    case JNum(_) => "int"
    case JStr(_) => "str"
    case JArr(_) => "list"
    case JObj(_) => "dict"
  }

  /** The message of the AttributeError Python raises when `v.attr` does
      not exist: `'<type>' object has no attribute '<attr>'`. */
  function NoAttribute(v: Value, attr: string): string {
    "'" + TypeName(v) + "' object has no attribute '" + attr + "'"
  }

  /** The AttributeError message quotes the type name first and the
      attribute last; the type names tell an object and an array apart
      from every other value. */
  lemma NoAttributeNamesType(v: Value, attr: string)
    ensures var m := NoAttribute(v, attr);
            var t := TypeName(v);
            |m| > |t| + |attr| + 1
            && m[..|t| + 1] == "'" + t
            && m[|m| - |attr| - 1..] == attr + "'"
    ensures TypeName(v) == "dict" <==> v.JObj?
    ensures TypeName(v) == "list" <==> v.JArr?
  {
    var m := NoAttribute(v, attr);
    var t := TypeName(v);
    var mid := "' object has no attribute '";
    assert m == "'" + t + mid + attr + "'";
    assert m[..|t| + 1] == "'" + t;
    assert m[|m| - |attr| - 1..] == attr + "'";
  }

  /** Python's `str(x)` for the `code` a response carries (`None` when the
      key is absent). Lists and dicts are not rendered in full. */
  function CodeText(code: Option<Value>): string {
    match code
    case None => "None"
    case Some(JNull) => "None"
    case Some(JBool(b)) => if b then "True" else "False"
    case Some(JNum(n)) => IntToString(n)
    case Some(JStr(s)) => s
    case Some(JArr(_)) => "[...]"
    case Some(JObj(_)) => "{...}"
  }

  /** An integer `code` is written as Python's `str` writes it, reading
      back as the same number; an absent one is written `None`. */
  lemma CodeTextOfNumber(n: int)
    ensures IsIntText(CodeText(Some(JNum(n))))
    ensures IntValue(CodeText(Some(JNum(n)))) == n
    ensures CodeText(None) == "None"
  {
    IntToStringReadsBack(n);
  }
}
