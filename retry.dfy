/** `run_curl_and_save`: run the query for one (resource type, target)
    pair with at most `MaxRetries` retries, and on the first attempt that
    completes append one formatted block to the type's output file. A
    non-zero exit status, a timeout and any other exception (a failed write
    of the output file included) are all handled the same way: count the
    attempt and, if another one follows, wait a random backoff first. */
module Retry {
  import opened Text
  import opened Json
  import opened Extraction
  import opened Request

  const MaxRetries: nat := 2

  /** The outcome of `random.randint(5, 10)`. */
  type Backoff = d: int | 5 <= d <= 10 witness 5

  /** How one run of the curl command ended. */
  datatype Transport =
    | Exited(returnCode: int, stdout: string, stderr: string)
    | TimedOut            // subprocess.TimeoutExpired
    | Faulted(reason: string)  // any other exception while running it

  /** What the world contributes to one attempt: the index
      `random.choice` falls on when `get_random_ua` draws the user agent, the
      transport outcome, the clock reading for the header, whether writing
      the output file raises, and the backoff drawn after a failure. */
  datatype Attempt = Attempt(uaIndex: UaIndex, transport: Transport, stamp: string, writeFails: bool, backoff: Backoff)

  /** An attempt that ends in `return`: curl exited with 0 and the block
      was written. */
  predicate Succeeds(a: Attempt) {
    a.transport.Exited? && a.transport.returnCode == 0 && !a.writeFails
  }

  /** The first succeeding attempt numbered `from` or later, if one comes
      within the retry budget. */
  function FirstSuccess(env: nat -> Attempt, from: nat): Option<nat>
    decreases MaxRetries + 1 - from
  {
    if from > MaxRetries then None
    else if Succeeds(env(from)) then Some(from)
    else FirstSuccess(env, from + 1)
  }

  /** Number of attempts the call makes. */
  function AttemptsMade(env: nat -> Attempt): nat {
    match FirstSuccess(env, 0)
    case Some(k) => k + 1
    case None => MaxRetries + 1
  }

  /** Sleeping the backoff of attempt `n` after those of the attempts
      before it keeps each pause paired with its attempt. */
  lemma SleepsExtend(env: nat -> Attempt, sleeps: seq<Backoff>, n: nat)
    requires |sleeps| == n
    requires forall k :: 0 <= k < |sleeps| ==> sleeps[k] == env(k).backoff
    ensures forall k :: 0 <= k < |sleeps + [env(n).backoff]| ==> (sleeps + [env(n).backoff])[k] == env(k).backoff
  {
  }

  /** `'=' * 50`. */
  const Rule: string := Repeat('=', 50)

  /** The header line naming target, type, field and time. */
  function Header(target: string, rt: ResourceType, stamp: string): string {
    "【目标：" + target + "】" + Label(rt) + " 类型 " + HeaderField(rt) + " 列表（" + stamp + "）"
  }

  /** The block appended for one pair: rule, header, rule, the values one
      per line, and a final newline; it starts with a newline too. */
  function Block(target: string, rt: ResourceType, stamp: string, values: seq<string>): string {
    "\n" + Rule + "\n" + Header(target, rt, stamp) + "\n" + Rule + "\n" + Join(values, "\n") + "\n"
  }

  /** The lines extracted from the body an attempt received. */
  function ExtractedFrom(a: Attempt, rt: ResourceType, target: string, parse: string -> Parsed): seq<string>
    requires a.transport.Exited?
  {
    Rendered(target, rt, Classify(a.transport.stdout, parse(a.transport.stdout), rt))
  }

  /** What one call adds to the output file: the block of the first
      succeeding attempt, or nothing when every attempt fails. */
  function Appended(rt: ResourceType, target: string, env: nat -> Attempt, parse: string -> Parsed): string {
    match FirstSuccess(env, 0)
    case None => ""
    case Some(k) => Block(target, rt, env(k).stamp, ExtractedFrom(env(k), rt, target, parse))
  }

  /** An output file opened in append mode; only ever appended to. */
  class OutputFile {
    var contents: string

    constructor (initial: string)
      ensures contents == initial
    {
      contents := initial;
    }
  }

  /** `run_curl_and_save(resource_type, target, output_file)`. Besides the
      return code it yields the number of attempts it made and the backoffs
      it slept; the command each attempt runs is stated by `TryOnce`. */
  method RunCurlAndSave(rt: ResourceType, target: string, out: OutputFile,
                        env: nat -> Attempt, parse: string -> Parsed)
    returns (rc: int, attempts: nat, sleeps: seq<Backoff>)
    modifies out
    ensures rc == (if FirstSuccess(env, 0).Some? then 0 else -1)
    ensures out.contents == old(out.contents) + Appended(rt, target, env, parse)
    ensures attempts == AttemptsMade(env)
    ensures |sleeps| == attempts - 1
    ensures forall k :: 0 <= k < |sleeps| ==> sleeps[k] == env(k).backoff
  {
    attempts, sleeps := 0, [];
    var retryCount: nat := 0;
    while retryCount <= MaxRetries
      invariant retryCount <= MaxRetries + 1
      invariant FirstSuccess(env, 0) == FirstSuccess(env, retryCount)
      invariant attempts == retryCount
      invariant |sleeps| == if retryCount <= MaxRetries then retryCount else MaxRetries
      invariant forall k :: 0 <= k < |sleeps| ==> sleeps[k] == env(k).backoff
      invariant out.contents == old(out.contents)
      decreases MaxRetries + 1 - retryCount
    {
      var attempt := env(retryCount);
      var curlCmd, saved := TryOnce(rt, target, out, attempt, parse);
      attempts := attempts + 1;
      if saved {
        AppendedAt(rt, target, env, parse, retryCount);
        return 0, attempts, sleeps;
      }
      FailureAdvances(env, retryCount);
      retryCount := retryCount + 1;
      if retryCount <= MaxRetries {
        SleepsExtend(env, sleeps, retryCount - 1);
        sleeps := sleeps + [attempt.backoff];
      }
    }
    AppendedAt(rt, target, env, parse, retryCount);
    return -1, attempts, sleeps;
  }

  /** The `try` block of one attempt: build the command, run it, and on
      exit status 0 extract the values and append the block. `saved` says
      whether that write happened. */
  method TryOnce(rt: ResourceType, target: string, out: OutputFile, attempt: Attempt, parse: string -> Parsed)
    returns (curlCmd: string, saved: bool)
    modifies out
    ensures curlCmd == CurlCommand(rt, target, RandomUa(attempt.uaIndex))
    ensures saved == Succeeds(attempt)
    ensures saved ==> out.contents == old(out.contents) + Block(target, rt, attempt.stamp, ExtractedFrom(attempt, rt, target, parse))
    ensures !saved ==> out.contents == old(out.contents)
  {
    var ua := RandomUa(attempt.uaIndex);
    curlCmd := CurlCommand(rt, target, ua);
    saved := false;
    match attempt.transport {
      case Exited(returnCode, stdout, _) =>
        if returnCode == 0 {
          var values := ExtractField(stdout, parse, rt, target);
          if !attempt.writeFails {
            AppendBlock(out, target, rt, attempt.stamp, values);
            saved := true;
          }
        }
      case TimedOut =>
      case Faulted(_) =>
    }
  }

  /** Format the block for one pair and append it to the output file
      (`open(output_file, "a+")` and one `write`). */
  method AppendBlock(out: OutputFile, target: string, rt: ResourceType, stamp: string, values: seq<string>)
    modifies out
    ensures out.contents == old(out.contents) + Block(target, rt, stamp, values)
  {
    var appendContent := "\n" + Rule + "\n";
    appendContent := appendContent + Header(target, rt, stamp) + "\n";
    appendContent := appendContent + Rule + "\n";
    appendContent := appendContent + Join(values, "\n");
    appendContent := appendContent + "\n";
    out.contents := out.contents + appendContent;
  }

  /** A failing attempt leaves the search for the first success to the
      attempts after it. */
  lemma FailureAdvances(env: nat -> Attempt, k: nat)
    requires k <= MaxRetries && !Succeeds(env(k))
    ensures FirstSuccess(env, k) == FirstSuccess(env, k + 1)
  {
  }

  /** `Appended` at the attempt the loop stopped at. */
  lemma AppendedAt(rt: ResourceType, target: string, env: nat -> Attempt, parse: string -> Parsed, k: nat)
    requires FirstSuccess(env, 0) == FirstSuccess(env, k)
    ensures k > MaxRetries ==> Appended(rt, target, env, parse) == ""
    ensures k <= MaxRetries && Succeeds(env(k)) ==>
              Appended(rt, target, env, parse) == Block(target, rt, env(k).stamp, ExtractedFrom(env(k), rt, target, parse))
  {
  }

  /** The first success, characterised: it comes within the budget, that
      attempt succeeds and every earlier one fails; and there is none
      exactly when every attempt in the budget fails. */
  lemma {:induction false} FirstSuccessFrom(env: nat -> Attempt, from: nat)
    ensures FirstSuccess(env, from).Some? ==>
              var k := FirstSuccess(env, from).value;
              from <= k <= MaxRetries && Succeeds(env(k))
              && forall j :: from <= j < k ==> !Succeeds(env(j))
    ensures FirstSuccess(env, from).None? <==> forall j :: from <= j <= MaxRetries ==> !Succeeds(env(j))
    decreases MaxRetries + 1 - from
  {
    if from <= MaxRetries && !Succeeds(env(from)) {
      FirstSuccessFrom(env, from + 1);
    }
  }

  /** At most `MaxRetries + 1` attempts, hence at most `MaxRetries`
      backoffs; a call that returns 0 stopped at its first success and one
      that returns -1 saw every attempt fail and wrote nothing. */
  lemma AttemptBudget(rt: ResourceType, target: string, env: nat -> Attempt, parse: string -> Parsed)
    ensures 1 <= AttemptsMade(env) <= MaxRetries + 1
    ensures FirstSuccess(env, 0).Some? ==>
              (Succeeds(env(AttemptsMade(env) - 1)) && forall j :: 0 <= j < AttemptsMade(env) - 1 ==> !Succeeds(env(j)))
    ensures FirstSuccess(env, 0).None? <==> forall j :: 0 <= j <= MaxRetries ==> !Succeeds(env(j))
    ensures FirstSuccess(env, 0).None? ==> Appended(rt, target, env, parse) == ""
  {
    FirstSuccessFrom(env, 0);
  }

  /** The extracted lines of a completed attempt are never empty, so the
      block always has at least one value line. */
  lemma ExtractedNonEmpty(a: Attempt, rt: ResourceType, target: string, parse: string -> Parsed)
    requires a.transport.Exited?
    ensures |ExtractedFrom(a, rt, target, parse)| >= 1
  {
  }

  /** The block reads back, line by line, as the separator, the header,
      the separator and the values, between an empty first and last line,
      provided none of its parts holds a newline. */
  lemma BlockLines(target: string, rt: ResourceType, stamp: string, values: seq<string>)
    requires values != []
    requires '\n' !in target && '\n' !in stamp
    requires forall k :: 0 <= k < |values| ==> '\n' !in values[k]
    ensures Split(Block(target, rt, stamp, values), '\n') == ["", Rule, Header(target, rt, stamp), Rule] + values + [""]
  {
    var h := Header(target, rt, stamp);
    var lines := ["", Rule, h, Rule] + values + [""];
    BlockIsJoin(target, rt, stamp, values);
    HeaderHasNoNewline(target, rt, stamp);
    forall k | 0 <= k < |lines| ensures '\n' !in lines[k] {
      if 4 <= k < 4 + |values| {
        assert lines[k] == values[k - 4];
      } else if k == 2 {
        assert lines[k] == h;
      } else {
        assert lines[k] == Rule || lines[k] == "";
      }
    }
    SplitJoin(lines, '\n');
  }

  /** The block is the join, on newlines, of its lines. */
  lemma BlockIsJoin(target: string, rt: ResourceType, stamp: string, values: seq<string>)
    requires values != []
    ensures Block(target, rt, stamp, values) == Join(["", Rule, Header(target, rt, stamp), Rule] + values + [""], "\n")
  {
    var h := Header(target, rt, stamp);
    var head := ["", Rule, h, Rule];
    HeadJoin(Rule, h);
    JoinAppend(head, values, "\n");
    JoinAppend(head + values, [""], "\n");
  }

  /** The four leading lines, joined: a newline, the rule, the header
      line and the rule again. */
  lemma HeadJoin(r: string, h: string)
    ensures Join(["", r, h, r], "\n") == "\n" + r + "\n" + h + "\n" + r
  {
    var head := ["", r, h, r];
    assert head[1..] == [r, h, r];
    assert head[1..][1..] == [h, r];
    assert head[1..][1..][1..] == [r];
    assert Join([h, r], "\n") == h + "\n" + r;
    assert Join([r, h, r], "\n") == r + "\n" + (h + "\n" + r);
    assert Join(head, "\n") == "" + "\n" + (r + "\n" + (h + "\n" + r));
  }

  lemma HeaderHasNoNewline(target: string, rt: ResourceType, stamp: string)
    requires '\n' !in target && '\n' !in stamp
    ensures '\n' !in Header(target, rt, stamp)
  {
    assert '\n' !in Label(rt) && '\n' !in HeaderField(rt);
    assert '\n' !in "【目标：" && '\n' !in "】" && '\n' !in " 类型 " && '\n' !in " 列表（" && '\n' !in "）";
  }
}
