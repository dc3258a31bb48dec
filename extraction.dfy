/** `extract_field`: turn the body of one query response into the list of
    strings written to the output file. The checks run in a fixed order and
    the first one that fails yields a single diagnostic line; otherwise the
    result is the trimmed, non-empty values of the resource type's field,
    in item order. */
module Extraction {
  import opened Text
  import opened Json

  /** The three resource categories, queried in this order. */
  datatype ResourceType = Web | App | Mapp

  /** The resource type as it appears in URLs, file names and messages. */
  function Label(rt: ResourceType): string {
    match rt
    case Web => "web"
    case App => "app"
    case Mapp => "mapp"
  }

  /** `field_map[resource_type]`: the item field holding the result. */
  function FieldFor(rt: ResourceType): string {
    match rt
    case Web => "domain"
    case App => "serviceName"
    case Mapp => "serviceName"
  }

  /** The field name `run_curl_and_save` prints in the block header; it is
      computed by its own conditional rather than by the map. */
  function HeaderField(rt: ResourceType): string {
    if rt == Web then "domain" else "serviceName"
  }

  /** The header's field name is the one the extractor read. */
  lemma HeaderFieldIsFieldFor(rt: ResourceType)
    ensures HeaderField(rt) == FieldFor(rt)
    ensures FieldFor(rt) == (if rt == Web then "domain" else "serviceName")
  {
  }

  /** Why no values could be extracted. */
  datatype Failure =
    | NoData                        // blank body
    | Unparsable                    // JSONDecodeError
    | BadCode(code: Option<Value>)  // `code` is not 200
    | NoParams                      // no `params` key
    | ListNotArray                  // `params.list` is not a list
    | NoValidField(field: string)   // no item had a non-blank value
    | Raised(message: string)       // any other exception, by its message

  datatype Extraction = Values(values: seq<string>) | Failed(failure: Failure)

  /** What `item.get(field, "").strip()` gives for one list item. */
  datatype Read = Got(value: string) | Raises(message: string)

  function ReadItem(item: Value, field: string): Read {
    match item
    case JObj(m) =>
      (match Get(m, field)
       case None => Got(Strip(""))
       case Some(JStr(s)) => Got(Strip(s))
       case Some(v) => Raises(NoAttribute(v, "strip")))
    case _ => Raises(NoAttribute(item, "get"))
  }

  /** State of the item loop: the values kept so far with both counters,
      or the message of the exception that ended it. */
  datatype Scan = Scanned(fields: seq<string>, valid: nat, invalid: nat) | Aborted(message: string)

  /** The item loop run over `items`, one item at a time from the front. */
  function ScanItems(items: seq<Value>, field: string): Scan
    decreases |items|
  {
    if items == [] then Scanned([], 0, 0)
    else Step(ScanItems(items[..|items| - 1], field), ReadItem(items[|items| - 1], field))
  }

  /** One pass of the item loop. */
  function Step(scan: Scan, read: Read): Scan {
    match scan
    case Aborted(m) => Aborted(m)
    case Scanned(fs, valid, invalid) =>
      match read
      case Raises(m) => Aborted(m)
      case Got(v) => if v != [] then Scanned(fs + [v], valid + 1, invalid) else Scanned(fs, valid, invalid + 1)
  }

  lemma ScanExtends(items: seq<Value>, i: nat, field: string)
    requires i < |items|
    ensures ScanItems(items[..i + 1], field) == Step(ScanItems(items[..i], field), ReadItem(items[i], field))
  {
    assert items[..i + 1][..i] == items[..i];
  }

  /** Reference definition of the kept values: every non-blank value, in
      item order. */
  function Kept(items: seq<Value>, field: string): seq<string> {
    if items == [] then [] else KeptOf(ReadItem(items[0], field)) + Kept(items[1..], field)
  }

  /** What one item adds to the kept values: its value when non-blank. */
  function KeptOf(read: Read): seq<string> {
    match read
    case Got(v) => if v != [] then [v] else []
    case Raises(_) => []
  }

  /** Outcome of the checks made before the item loop: a failure, or the
      list of items to scan. */
  datatype Checked = Stop(failure: Failure) | Items(items: seq<Value>)

  /** The checks before the loop, in source order. */
  function Precheck(body: string, parsed: Parsed): Checked {
    if Strip(body) == [] then Stop(NoData)
    else match parsed
      case Malformed => Stop(Unparsable)
      case Decoded(data) =>
        if !data.JObj? then Stop(Raised(NoAttribute(data, "get")))
        else
          var code := Get(data.members, "code");
          if code != Some(JNum(200)) then Stop(BadCode(code))
          else if "params" !in data.members then Stop(NoParams)
          else
            var params := data.members["params"];
            if !params.JObj? then Stop(Raised(NoAttribute(params, "get")))
            else
              var listData := ListOf(params.members);
              if !listData.JArr? then Stop(ListNotArray) else Items(listData.items)
  }

  /** The checks after the loop: an exception or no kept value fails. */
  function Finish(scan: Scan, field: string): (e: Extraction)
    ensures e.Values? ==> e.values != []
  {
    match scan
    case Aborted(m) => Failed(Raised(m))
    case Scanned(fs, _, _) => if fs == [] then Failed(NoValidField(field)) else Values(fs)
  }

  /** The full validation chain, on the outcome of parsing the body. */
  function Classify(body: string, parsed: Parsed, rt: ResourceType): (e: Extraction)
    ensures e.Values? ==> e.values != []
  {
    match Precheck(body, parsed)
    case Stop(f) => Failed(f)
    case Items(items) => Finish(ScanItems(items, FieldFor(rt)), FieldFor(rt))
  }

  /** The diagnostic line for a failure, naming the target and the type. */
  function Message(target: string, rt: ResourceType, f: Failure): string {
    var head := "【" + target + "】" + Label(rt) + " ";
    match f
    case NoData => head + "服务器未返回有效数据"
    case Unparsable => head + "数据解析失败（JSON格式错误）"
    case BadCode(code) => head + "服务器响应失败（code：" + CodeText(code) + "）"
    case NoParams => head + "响应格式错误（缺少params）"
    case ListNotArray => head + "数据格式错误（list不是数组）"
    case NoValidField(field) => head + "未找到有效" + field
    case Raised(m) => head + "提取失败：" + m
  }

  /** The list `extract_field` returns for an extraction outcome. */
  function Rendered(target: string, rt: ResourceType, e: Extraction): seq<string> {
    match e
    case Values(vs) => vs
    case Failed(f) => [Message(target, rt, f)]
  }

  /** Every diagnostic names the target in brackets and then the type,
      before a non-empty reason. */
  lemma MessageHead(target: string, rt: ResourceType, f: Failure)
    ensures var head := "【" + target + "】" + Label(rt) + " ";
            |head| < |Message(target, rt, f)| && Message(target, rt, f)[..|head|] == head
  {
    var head := "【" + target + "】" + Label(rt) + " ";
    var reason := Message(target, rt, f)[|head|..];
    assert Message(target, rt, f) == head + reason;
  }

  /** `extract_field(response_content, resource_type, target)`, with
      `parse` standing for `json.loads`. */
  method ExtractField(body: string, parse: string -> Parsed, rt: ResourceType, target: string)
    returns (result: seq<string>)
    ensures result == Rendered(target, rt, Classify(body, parse(body), rt))
  {
    if Strip(body) == [] {
      return [Message(target, rt, NoData)];
    }
    var parsed := parse(body);
    if parsed.Malformed? {
      return [Message(target, rt, Unparsable)];
    }
    var data := parsed.value;
    if !data.JObj? {
      return [Message(target, rt, Raised(NoAttribute(data, "get")))];
    }
    var code := Get(data.members, "code");
    if code != Some(JNum(200)) {
      return [Message(target, rt, BadCode(code))];
    }
    if "params" !in data.members {
      return [Message(target, rt, NoParams)];
    }
    var params := data.members["params"];
    if !params.JObj? {
      return [Message(target, rt, Raised(NoAttribute(params, "get")))];
    }
    var listData := ListOf(params.members);
    if !listData.JArr? {
      return [Message(target, rt, ListNotArray)];
    }
    var field := FieldFor(rt);
    var scan := CollectFields(listData.items, field);
    match scan
    case Aborted(m) =>
      return [Message(target, rt, Raised(m))];
    case Scanned(fields, _, _) =>
      if fields == [] {
        return [Message(target, rt, NoValidField(field))];
      }
      return fields;
  }

  /** The item loop of `extract_field`: keep each non-blank value, count
      valid and invalid items, and stop at the first item that raises. */
  method CollectFields(items: seq<Value>, field: string) returns (scan: Scan)
    ensures scan == ScanItems(items, field)
  {
    var fields: seq<string> := [];
    var valid, invalid := 0, 0;
    for i := 0 to |items|
      invariant ScanItems(items[..i], field) == Scanned(fields, valid, invalid)
    {
      ScanExtends(items, i, field);
      match ReadItem(items[i], field)
      case Raises(m) =>
        AbortedPersists(items, i + 1, field);
        return Aborted(m);
      case Got(value) =>
        if value != [] {
          fields := fields + [value];
          valid := valid + 1;
        } else {
          invalid := invalid + 1;
        }
    }
    assert items[..|items|] == items;
    return Scanned(fields, valid, invalid);
  }

  /** Once an item raises, the rest of the list is never looked at. */
  lemma {:induction false} AbortedPersists(items: seq<Value>, i: nat, field: string)
    requires i <= |items|
    requires ScanItems(items[..i], field).Aborted?
    ensures ScanItems(items, field) == ScanItems(items[..i], field)
    decreases |items| - i
  {
    if i < |items| {
      assert items[..i + 1][..i] == items[..i];
      AbortedPersists(items, i + 1, field);
    } else {
      assert items[..i] == items;
    }
  }

  /** `valid_count` is the number of kept values, and every item is
      counted as valid or as invalid. */
  lemma {:induction false} ScanCounts(items: seq<Value>, field: string)
    requires ScanItems(items, field).Scanned?
    ensures ScanItems(items, field).valid == |ScanItems(items, field).fields|
    ensures ScanItems(items, field).valid + ScanItems(items, field).invalid == |items|
    decreases |items|
  {
    if items != [] {
      ScanCounts(items[..|items| - 1], field);
    }
  }

  /** Keeping distributes over concatenation: the kept values keep the
      order of the items they come from. */
  lemma {:induction false} KeptAppend(a: seq<Value>, b: seq<Value>, field: string)
    ensures Kept(a + b, field) == Kept(a, field) + Kept(b, field)
    decreases |a|
  {
    if a == [] {
      assert a + b == b;
    } else {
      assert (a + b)[0] == a[0];
      assert (a + b)[1..] == a[1..] + b;
      KeptAppend(a[1..], b, field);
    }
  }

  predicate NoItemRaises(items: seq<Value>, field: string) {
    forall k :: 0 <= k < |items| ==> ReadItem(items[k], field).Got?
  }

  /** The loop finishes exactly when no item raises, and then keeps
      exactly the reference values. */
  lemma {:induction false} ScanIsKept(items: seq<Value>, field: string)
    ensures ScanItems(items, field).Scanned? <==> NoItemRaises(items, field)
    ensures ScanItems(items, field).Scanned? ==> ScanItems(items, field).fields == Kept(items, field)
    decreases |items|
  {
    if items != [] {
      var init := items[..|items| - 1];
      var last := items[|items| - 1];
      ScanIsKept(init, field);
      assert items == init + [last];
      KeptAppend(init, [last], field);
      assert [last][1..] == [];
      assert NoItemRaises(items, field) <==> NoItemRaises(init, field) && ReadItem(last, field).Got? by {
        assert forall k :: 0 <= k < |init| ==> items[k] == init[k];
      }
    }
  }

  /** When the loop is cut short, it is by the first item that raises,
      with that item's message. */
  lemma {:induction false} ScanAbortsAtFirstRaise(items: seq<Value>, field: string)
    requires ScanItems(items, field).Aborted?
    ensures exists k :: 0 <= k < |items| && ReadItem(items[k], field) == Raises(ScanItems(items, field).message)
                        && NoItemRaises(items[..k], field)
    decreases |items|
  {
    var init := items[..|items| - 1];
    var last := items[|items| - 1];
    if ScanItems(init, field).Aborted? {
      ScanAbortsAtFirstRaise(init, field);
      var k :| 0 <= k < |init| && ReadItem(init[k], field) == Raises(ScanItems(init, field).message)
               && NoItemRaises(init[..k], field);
      assert items[k] == init[k];
      assert items[..k] == init[..k];
    } else {
      ScanIsKept(init, field);
      assert items[..|items| - 1] == init;
      assert ReadItem(items[|items| - 1], field) == Raises(ScanItems(items, field).message);
    }
  }

  /** Every kept value is non-empty and already stripped. */
  lemma {:induction false} KeptValuesClean(items: seq<Value>, field: string)
    ensures |Kept(items, field)| <= |items|
    ensures forall k :: 0 <= k < |Kept(items, field)| ==>
              Kept(items, field)[k] != [] && Strip(Kept(items, field)[k]) == Kept(items, field)[k]
    decreases |items|
  {
    if items != [] {
      KeptValuesClean(items[1..], field);
      ReadItemStripped(items[0], field);
    }
  }

  lemma ReadItemStripped(item: Value, field: string)
    ensures ReadItem(item, field).Got? ==> Strip(ReadItem(item, field).value) == ReadItem(item, field).value
  {
    if item.JObj? && field in item.members && item.members[field].JStr? {
      StripIdempotent(item.members[field].s);
    }
  }

  /** Extraction always yields at least one line, and a failure exactly
      one. */
  lemma ExtractionNeverEmpty(body: string, parsed: Parsed, rt: ResourceType, target: string)
    ensures |Rendered(target, rt, Classify(body, parsed, rt))| >= 1
    ensures Classify(body, parsed, rt).Failed? ==> |Rendered(target, rt, Classify(body, parsed, rt))| == 1
  {
  }

  /** Successful extraction, both ways: the body passed every check, no
      item raised, and the result is the non-empty reference values. */
  lemma ExtractionSucceeds(body: string, parsed: Parsed, rt: ResourceType, vs: seq<string>)
    ensures Classify(body, parsed, rt) == Values(vs) <==>
      && Strip(body) != []
      && parsed.Decoded? && parsed.value.JObj?
      && Get(parsed.value.members, "code") == Some(JNum(200))
      && "params" in parsed.value.members
      && parsed.value.members["params"].JObj?
      && ListOf(parsed.value.members["params"].members).JArr?
      && NoItemRaises(ListOf(parsed.value.members["params"].members).items, FieldFor(rt))
      && vs == Kept(ListOf(parsed.value.members["params"].members).items, FieldFor(rt))
      && vs != []
  {
    if Strip(body) != [] && parsed.Decoded? && parsed.value.JObj? && "params" in parsed.value.members
       && parsed.value.members["params"].JObj? {
      var l := ListOf(parsed.value.members["params"].members);
      if l.JArr? {
        ScanIsKept(l.items, FieldFor(rt));
      }
    }
  }

  /** `params.get("list", [])`. */
  function ListOf(params: map<string, Value>): Value {
    if "list" in params then params["list"] else JArr([])
  }

  /** The checks short-circuit in source order. */
  lemma BlankBodyIsNoData(body: string, parsed: Parsed, rt: ResourceType)
    requires AllWhitespace(body)
    ensures Classify(body, parsed, rt) == Failed(NoData)
  {
  }

  lemma MalformedIsUnparsable(body: string, rt: ResourceType)
    requires !AllWhitespace(body)
    ensures Classify(body, Malformed, rt) == Failed(Unparsable)
  {
  }

  lemma BadCodeWins(body: string, m: map<string, Value>, rt: ResourceType)
    requires !AllWhitespace(body)
    requires Get(m, "code") != Some(JNum(200))
    ensures Classify(body, Decoded(JObj(m)), rt) == Failed(BadCode(Get(m, "code")))
  {
  }

  lemma MissingParams(body: string, m: map<string, Value>, rt: ResourceType)
    requires !AllWhitespace(body)
    requires Get(m, "code") == Some(JNum(200)) && "params" !in m
    ensures Classify(body, Decoded(JObj(m)), rt) == Failed(NoParams)
  {
  }

  lemma ListMustBeArray(body: string, m: map<string, Value>, p: map<string, Value>, rt: ResourceType)
    requires !AllWhitespace(body)
    requires Get(m, "code") == Some(JNum(200)) && "params" in m && m["params"] == JObj(p)
    requires !ListOf(p).JArr?
    ensures Classify(body, Decoded(JObj(m)), rt) == Failed(ListNotArray)
  {
  }

  /** A missing `list` key counts as an empty list, hence "no valid field". */
  lemma MissingListIsEmpty(body: string, m: map<string, Value>, p: map<string, Value>, rt: ResourceType)
    requires !AllWhitespace(body)
    requires Get(m, "code") == Some(JNum(200)) && "params" in m && m["params"] == JObj(p)
    requires "list" !in p
    ensures Classify(body, Decoded(JObj(m)), rt) == Failed(NoValidField(FieldFor(rt)))
  {
  }

  /** A value that is not an object where `.get` is called fails with
      Python's AttributeError message. */
  lemma NonObjectRaises(body: string, v: Value, rt: ResourceType)
    requires !AllWhitespace(body) && !v.JObj?
    ensures Classify(body, Decoded(v), rt) == Failed(Raised(NoAttribute(v, "get")))
  {
  }

  /** A `params` that is not an object makes `.get("list", [])` raise,
      with Python's AttributeError message. */
  lemma ParamsNotObjectRaises(body: string, m: map<string, Value>, rt: ResourceType)
    requires !AllWhitespace(body)
    requires Get(m, "code") == Some(JNum(200)) && "params" in m && !m["params"].JObj?
    ensures Classify(body, Decoded(JObj(m)), rt) == Failed(Raised(NoAttribute(m["params"], "get")))
  {
  }

  /** An array in which no item raises gives "no valid field" for the
      mapped field exactly when no value is kept. */
  lemma NothingKeptIsNoValidField(body: string, m: map<string, Value>, p: map<string, Value>,
                                  items: seq<Value>, rt: ResourceType)
    requires !AllWhitespace(body)
    requires Get(m, "code") == Some(JNum(200)) && "params" in m && m["params"] == JObj(p)
    requires ListOf(p) == JArr(items) && NoItemRaises(items, FieldFor(rt))
    ensures Classify(body, Decoded(JObj(m)), rt) == Failed(NoValidField(FieldFor(rt)))
            <==> Kept(items, FieldFor(rt)) == []
  {
    ScanIsKept(items, FieldFor(rt));
  }

  /** An item whose read raises, with none raising before it, makes the
      whole extraction fail with that item's exception message. */
  lemma FirstRaiseFails(body: string, m: map<string, Value>, p: map<string, Value>,
                        items: seq<Value>, k: nat, rt: ResourceType)
    requires !AllWhitespace(body)
    requires Get(m, "code") == Some(JNum(200)) && "params" in m && m["params"] == JObj(p)
    requires ListOf(p) == JArr(items)
    requires k < |items| && ReadItem(items[k], FieldFor(rt)).Raises? && NoItemRaises(items[..k], FieldFor(rt))
    ensures Classify(body, Decoded(JObj(m)), rt) == Failed(Raised(ReadItem(items[k], FieldFor(rt)).message))
  {
    var f := FieldFor(rt);
    ScanIsKept(items[..k], f);
    ScanExtends(items, k, f);
    AbortedPersists(items, k + 1, f);
  }
}
