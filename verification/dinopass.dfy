/**
 The DinoPass password client: the request URL built from the complexity and
 the strong-password options, the trimming of each response, and the loop that
 asks for `count` passwords. Each HTTP response is an input (`fetch`, indexed
 by request number); sleeping is recorded, not performed.
 */
module DinoPass {

  import opened Wrappers
  import Text
  import Query

  const Base: string := "https://www.dinopass.com/password/"

  /** Go's `(string, error)` pair returned by `buildURL`. */
  datatype Built = Built(url: string, err: Option<string>)

  /** Go's `%t`. */
  function BoolText(b: bool): (t: string)
    ensures Query.AllUnreserved(t)
  {
    if b then "true" else "false"
  }

  /** `length` is sent only inside the range the service accepts. */
  predicate LengthInRange(length: int) {
    7 <= length <= 20
  }

  // The query keys of a strong request
  const LengthKey: string := "length"
  const CapitalsKey: string := "useCapitals"
  const NumbersKey: string := "useNumbers"
  const SymbolsKey: string := "useSymbols"

  /** The query of a strong-password request, set key by key as the program does. */
  function StrongValues(length: int, useSymbols: bool, useNumbers: bool, useCapitals: bool): Query.Values {
    var q0: Query.Values := map[];
    var q1 := if LengthInRange(length) then Query.Set(q0, LengthKey, Text.Decimal(length)) else q0;
    var q2 := Query.Set(q1, SymbolsKey, BoolText(useSymbols));
    var q3 := Query.Set(q2, NumbersKey, BoolText(useNumbers));
    Query.Set(q3, CapitalsKey, BoolText(useCapitals))
  }

  /** `URL.String` of the parsed `base + "strong"`: the query, when there is
      one, follows a `?`. */
  function WithQuery(u: string, rawQuery: string): string {
    if rawQuery == "" then u else u + "?" + rawQuery
  }

  /** `p` is a prefix of `s`. */
  predicate HasPrefix(s: string, p: string) {
    |p| <= |s| && s[..|p|] == p
  }

  lemma PrefixExtends(p: string, a: string, b: string)
    requires HasPrefix(a, p)
    ensures HasPrefix(a + b, p)
  {
    assert (a + b)[..|p|] == a[..|p|];
  }

  lemma WithQueryKeepsPrefix(p: string, u: string, q: string)
    requires HasPrefix(u, p)
    ensures HasPrefix(WithQuery(u, q), p) && |WithQuery(u, q)| >= |u|
  {
    if q != "" {
      PrefixExtends(p, u, "?" + q);
      assert WithQuery(u, q) == u + ("?" + q);
    }
  }

  /** A non-empty path after the base, with or without a query, keeps the base in front. */
  lemma BaseExtended(path: string, query: string)
    requires path != ""
    ensures |WithQuery(Base + path, query)| > |Base| && HasPrefix(WithQuery(Base + path, query), Base)
  {
    PrefixExtends(Base, Base, path);
    WithQueryKeepsPrefix(Base, Base + path, query);
  }

  /** `buildURL`. */
  function BuildUrl(complexity: string, length: int, useSymbols: bool, useNumbers: bool, useCapitals: bool)
    : (b: Built)
    ensures b.err.None? <==> complexity == "simple" || complexity == "strong"
    ensures b.err.Some? ==> b.url == "" && b.err.value == "invalid complexity: " + complexity
    ensures b.err.None? ==> |b.url| > |Base| && HasPrefix(b.url, Base)
  {
    if complexity == "simple" then
      PrefixExtends(Base, Base, "simple");
      Built(Base + "simple", None)
    else if complexity != "strong" then
      Built("", Some("invalid complexity: " + complexity))
    else
      Built(StrongUrlOf(length, useSymbols, useNumbers, useCapitals), None)
  }

  /** The simple URL ignores every option and carries no query. */
  lemma SimpleUrl(length: int, useSymbols: bool, useNumbers: bool, useCapitals: bool)
    ensures BuildUrl("simple", length, useSymbols, useNumbers, useCapitals)
         == Built("https://www.dinopass.com/password/simple", None)
  {
  }

  /** Only the exact words "simple" and "strong" are accepted; anything else
      gives the empty URL and an error naming it. */
  lemma InvalidComplexity(complexity: string, length: int, useSymbols: bool, useNumbers: bool, useCapitals: bool)
    requires complexity != "simple" && complexity != "strong"
    ensures BuildUrl(complexity, length, useSymbols, useNumbers, useCapitals)
         == Built("", Some("invalid complexity: " + complexity))
  {
  }

  /** The keys of a strong query in the order `Encode` writes them. */
  function StrongKeys(length: int): seq<string> {
    if LengthInRange(length) then [LengthKey, CapitalsKey, NumbersKey, SymbolsKey]
    else [CapitalsKey, NumbersKey, SymbolsKey]
  }

  /** `key=value` for a key and value that need no escaping. */
  function Plain(key: string, value: string): string {
    key + "=" + value
  }

  /** The pairs of a strong query, in the order `Encode` writes them. */
  function StrongPairs(length: int, useSymbols: bool, useNumbers: bool, useCapitals: bool): seq<string> {
    var c := Plain(CapitalsKey, BoolText(useCapitals));
    var n := Plain(NumbersKey, BoolText(useNumbers));
    var s := Plain(SymbolsKey, BoolText(useSymbols));
    if LengthInRange(length) then [Plain(LengthKey, Text.Decimal(length)), c, n, s] else [c, n, s]
  }

  lemma KeysInOrder()
    ensures Query.StrictlySorted([LengthKey, CapitalsKey, NumbersKey, SymbolsKey])
    ensures Query.StrictlySorted([CapitalsKey, NumbersKey, SymbolsKey])
  {
    assert Query.Less("length", "useCapitals");
    assert Query.Less("useCapitals", "useNumbers") by {
      assert "useCapitals"[1..] == "seCapitals" && "useNumbers"[1..] == "seNumbers";
      assert "seCapitals"[1..] == "eCapitals" && "seNumbers"[1..] == "eNumbers";
      assert "eCapitals"[1..] == "Capitals" && "eNumbers"[1..] == "Numbers";
    }
    assert Query.Less("useNumbers", "useSymbols") by {
      assert "useNumbers"[1..] == "seNumbers" && "useSymbols"[1..] == "seSymbols";
      assert "seNumbers"[1..] == "eNumbers" && "seSymbols"[1..] == "eSymbols";
      assert "eNumbers"[1..] == "Numbers" && "eSymbols"[1..] == "Symbols";
    }
    Query.LessTransitive("length", "useCapitals", "useNumbers");
    Query.LessTransitive("length", "useNumbers", "useSymbols");
    Query.LessTransitive("useCapitals", "useNumbers", "useSymbols");
  }

  /** Which keys a strong query holds, and the value of each. */
  lemma StrongValuesContent(length: int, useSymbols: bool, useNumbers: bool, useCapitals: bool)
    ensures var v := StrongValues(length, useSymbols, useNumbers, useCapitals);
            && (forall k :: k in v.Keys <==> k in StrongKeys(length))
            && CapitalsKey in v && v[CapitalsKey] == [BoolText(useCapitals)]
            && NumbersKey in v && v[NumbersKey] == [BoolText(useNumbers)]
            && SymbolsKey in v && v[SymbolsKey] == [BoolText(useSymbols)]
            && (LengthInRange(length) ==> LengthKey in v && v[LengthKey] == [Text.Decimal(length)])
  {
  }

  /** `Encode` visits the keys of a strong query in this order. */
  lemma SortedStrongKeys(length: int, useSymbols: bool, useNumbers: bool, useCapitals: bool)
    ensures Query.SortedKeys(StrongValues(length, useSymbols, useNumbers, useCapitals).Keys) == StrongKeys(length)
  {
    StrongValuesContent(length, useSymbols, useNumbers, useCapitals);
    KeysInOrder();
    Query.SortedUnique(Query.SortedKeys(StrongValues(length, useSymbols, useNumbers, useCapitals).Keys),
                       StrongKeys(length));
  }

  lemma {:induction false} PairOfPlain(key: string, value: string)
    requires Query.AllUnreserved(key) && Query.AllUnreserved(value)
    ensures Query.Pair(key, value) == Plain(key, value)
  {
    Query.EscapeUnreservedIsIdentity(key);
    Query.EscapeUnreservedIsIdentity(value);
  }

  /** A key holding one value gives one pair. */
  lemma PairsStep(key: string, rest: seq<string>, v: Query.Values)
    requires key in v && |v[key]| == 1
    requires forall k :: k in rest ==> k in v
    ensures Query.Pairs([key] + rest, v) == [Query.Pair(key, v[key][0])] + Query.Pairs(rest, v)
  {
    assert ([key] + rest)[1..] == rest;
  }

  /** Three keys with one plain value each give three plain pairs. */
  lemma ThreePairs(v: Query.Values, a: string, b: string, c: string)
    requires a in v && |v[a]| == 1 && Query.AllUnreserved(a) && Query.AllUnreserved(v[a][0])
    requires b in v && |v[b]| == 1 && Query.AllUnreserved(b) && Query.AllUnreserved(v[b][0])
    requires c in v && |v[c]| == 1 && Query.AllUnreserved(c) && Query.AllUnreserved(v[c][0])
    ensures Query.Pairs([a, b, c], v) == [Plain(a, v[a][0]), Plain(b, v[b][0]), Plain(c, v[c][0])]
  {
    PairOfPlain(a, v[a][0]);
    PairOfPlain(b, v[b][0]);
    PairOfPlain(c, v[c][0]);
    PairsStep(c, [], v);
    assert [c] == [c] + [];
    PairsStep(b, [c], v);
    assert [b, c] == [b] + [c];
    PairsStep(a, [b, c], v);
    assert [a, b, c] == [a] + [b, c];
  }

  /** The same with a fourth key in front. */
  lemma FourPairs(v: Query.Values, l: string, a: string, b: string, c: string)
    requires l in v && |v[l]| == 1 && Query.AllUnreserved(l) && Query.AllUnreserved(v[l][0])
    requires a in v && |v[a]| == 1 && Query.AllUnreserved(a) && Query.AllUnreserved(v[a][0])
    requires b in v && |v[b]| == 1 && Query.AllUnreserved(b) && Query.AllUnreserved(v[b][0])
    requires c in v && |v[c]| == 1 && Query.AllUnreserved(c) && Query.AllUnreserved(v[c][0])
    ensures Query.Pairs([l, a, b, c], v)
         == [Plain(l, v[l][0]), Plain(a, v[a][0]), Plain(b, v[b][0]), Plain(c, v[c][0])]
  {
    ThreePairs(v, a, b, c);
    PairOfPlain(l, v[l][0]);
    PairsStep(l, [a, b, c], v);
    assert [l, a, b, c] == [l] + [a, b, c];
  }

  /** None of the strong query's keys or values needs escaping. */
  lemma StrongTextsUnreserved(length: nat)
    ensures Query.AllUnreserved(LengthKey) && Query.AllUnreserved(Text.Decimal(length))
    ensures Query.AllUnreserved(CapitalsKey) && Query.AllUnreserved(NumbersKey)
    ensures Query.AllUnreserved(SymbolsKey)
  {
  }

  /** The pairs of the strong query's keys, escaped, are the plain pairs. */
  lemma StrongEncoding(length: int, useSymbols: bool, useNumbers: bool, useCapitals: bool)
    ensures var v := StrongValues(length, useSymbols, useNumbers, useCapitals);
            Query.Pairs(Query.SortedKeys(v.Keys), v) == StrongPairs(length, useSymbols, useNumbers, useCapitals)
  {
    var v := StrongValues(length, useSymbols, useNumbers, useCapitals);
    SortedStrongKeys(length, useSymbols, useNumbers, useCapitals);
    StrongValuesContent(length, useSymbols, useNumbers, useCapitals);
    StrongTextsUnreserved(if length < 0 then 0 else length);
    if LengthInRange(length) {
      FourPairs(v, LengthKey, CapitalsKey, NumbersKey, SymbolsKey);
    } else {
      ThreePairs(v, CapitalsKey, NumbersKey, SymbolsKey);
    }
  }

  lemma JoinThree(c: string, n: string, s: string)
    ensures Query.Join([c, n, s], '&') == c + "&" + n + "&" + s
  {
    assert [c, n, s][1..] == [n, s] && [n, s][1..] == [s];
    assert Query.Join([s], '&') == s;
    assert Query.Join([n, s], '&') == n + "&" + s;
  }

  lemma JoinFour(l: string, c: string, n: string, s: string)
    ensures Query.Join([l, c, n, s], '&') == l + "&" + c + "&" + n + "&" + s
  {
    JoinThree(c, n, s);
    assert [l, c, n, s][1..] == [c, n, s];
  }

  /** The query text of a strong request: `length=N&` when the length is in
      range, then `useCapitals=B&useNumbers=B&useSymbols=B`. */
  function StrongQueryText(length: int, useSymbols: bool, useNumbers: bool, useCapitals: bool): string {
    (if LengthInRange(length) then Plain(LengthKey, Text.Decimal(length)) + "&" else "")
    + Plain(CapitalsKey, BoolText(useCapitals)) + "&"
    + Plain(NumbersKey, BoolText(useNumbers)) + "&"
    + Plain(SymbolsKey, BoolText(useSymbols))
  }

  /** `Join` of the three flag pairs, with or without the `length` pair first. */
  lemma JoinStrongPairs(length: int, useSymbols: bool, useNumbers: bool, useCapitals: bool)
    ensures Query.Join(StrongPairs(length, useSymbols, useNumbers, useCapitals), '&')
         == StrongQueryText(length, useSymbols, useNumbers, useCapitals)
  {
    var c := Plain(CapitalsKey, BoolText(useCapitals));
    var n := Plain(NumbersKey, BoolText(useNumbers));
    var s := Plain(SymbolsKey, BoolText(useSymbols));
    if LengthInRange(length) {
      JoinFour(Plain(LengthKey, Text.Decimal(length)), c, n, s);
    } else {
      JoinThree(c, n, s);
      assert "" + c == c;
    }
  }

  /** The URL of a strong request. */
  function StrongUrlOf(length: int, useSymbols: bool, useNumbers: bool, useCapitals: bool): (u: string)
    ensures |u| > |Base| && HasPrefix(u, Base)
  {
    var query := Query.Encode(StrongValues(length, useSymbols, useNumbers, useCapitals));
    BaseExtended("strong", query);
    WithQuery(Base + "strong", query)
  }

  /** A strong URL is the base, `strong?`, then `length` when it is in range
      and the three flags, all in sorted key order. */
  lemma StrongUrl(length: int, useSymbols: bool, useNumbers: bool, useCapitals: bool)
    ensures BuildUrl("strong", length, useSymbols, useNumbers, useCapitals).url
         == Base + "strong" + "?" + StrongQueryText(length, useSymbols, useNumbers, useCapitals)
  {
    StrongEncoding(length, useSymbols, useNumbers, useCapitals);
    JoinStrongPairs(length, useSymbols, useNumbers, useCapitals);
  }

  /** Read back at its `&`s, a strong query gives back its pairs ... */
  lemma StrongQuerySplits(length: int, useSymbols: bool, useNumbers: bool, useCapitals: bool)
    ensures Query.Split(Query.Encode(StrongValues(length, useSymbols, useNumbers, useCapitals)), '&')
         == StrongPairs(length, useSymbols, useNumbers, useCapitals)
  {
    StrongEncoding(length, useSymbols, useNumbers, useCapitals);
    Query.EncodeSplits(StrongValues(length, useSymbols, useNumbers, useCapitals));
  }

  /** ... the first of which is a `length` pair exactly when the length is in range. */
  lemma FirstPairIsLength(length: int, useSymbols: bool, useNumbers: bool, useCapitals: bool)
    ensures HasPrefix(StrongPairs(length, useSymbols, useNumbers, useCapitals)[0], LengthKey + "=")
            <==> LengthInRange(length)
  {
    var first := StrongPairs(length, useSymbols, useNumbers, useCapitals)[0];
    if LengthInRange(length) {
      PrefixExtends(LengthKey + "=", LengthKey + "=", Text.Decimal(length));
    } else {
      assert first[0] == 'u';
    }
  }

  /** The digits of the `length` pair give the length back. */
  lemma LengthReadBack(length: int, useSymbols: bool, useNumbers: bool, useCapitals: bool)
    requires LengthInRange(length)
    ensures var first := StrongPairs(length, useSymbols, useNumbers, useCapitals)[0];
            |first| > 7 && Text.DecimalValue(first[7..]) == length
  {
    assert (LengthKey + "=" + Text.Decimal(length))[7..] == Text.Decimal(length);
    Text.DecimalRoundTrip(length);
  }

  // The response and the generation loop

  /** One HTTP exchange as the client sees it: the body, or the error of the
      request or of reading the body. */
  datatype Response = Body(text: string) | Failure(err: string)

  /** `getPassword`: a successful body comes back trimmed. */
  function GetPassword(resp: Response): (r: Response)
    ensures resp.Failure? ==> r == resp
    ensures r.Body? ==> resp.Body? && Text.Trimmed(r.text)
    ensures r.Body? ==> exists i, j :: 0 <= i <= j <= |resp.text| && r.text == resp.text[i..j]
    ensures resp.Body? <==> r.Body?
    ensures resp.Body? ==> r.text == Text.TrimSpace(resp.text)
  {
    match resp
    case Body(text) => Body(Text.TrimSpace(text))
    case Failure(err) => Failure(err)
  }

  /** The returned password is already trimmed: trimming it again changes nothing. */
  lemma PasswordTrimIdempotent(resp: Response)
    requires GetPassword(resp).Body?
    ensures Text.TrimSpace(GetPassword(resp).text) == GetPassword(resp).text
  {
    Text.TrimSpaceIdempotent(resp.text);
  }

  /** A printed line, before rendering. */
  datatype Line = Password(n: nat, text: string) | FetchError(err: string) | UrlError(err: string)

  /** The text `fmt` prints for a line (without its newline). */
  function Render(line: Line): string {
    match line
    case Password(n, text) => "[" + Text.Decimal(n) + "] " + text
    case FetchError(err) => "Error generating password: " + err
    case UrlError(err) => "Error: " + err
  }

  /** What the program does, in order. */
  datatype Event = Request(url: string) | Print(line: Line) | Sleep(millis: int)

  /** The events of request number `i` (counted from 0) given what
      `getPassword` returned: the request, its line, and a sleep when it
      succeeded and another request follows. */
  function Step(url: string, count: int, delay: int, i: nat, pass: Response): seq<Event> {
    match pass
    case Failure(err) => [Request(url), Print(FetchError(err))]
    case Body(text) => [Request(url), Print(Password(i + 1, text))] + (if i < count - 1 then [Sleep(delay)] else [])
  }

  /** The events of the requests numbered `i` and later, as a reference
      definition of the loop in `main`; `fetch(i)` is what `getPassword`
      returns on request `i`. A failed request is the last one. */
  function Session(url: string, count: int, delay: int, fetch: nat -> Response, i: nat): seq<Event>
    decreases count - i
  {
    if i >= count then []
    else if fetch(i).Failure? then Step(url, count, delay, i, fetch(i))
    else Step(url, count, delay, i, fetch(i)) + Session(url, count, delay, fetch, i + 1)
  }

  /** The loop of `main`, request by request. */
  method Generate(url: string, count: int, delay: int, fetch: nat -> Response) returns (events: seq<Event>)
    ensures events == Session(url, count, delay, fetch, 0)
  {
    events := [];
    var i: nat := 0;
    while i < count
      invariant events + Session(url, count, delay, fetch, i) == Session(url, count, delay, fetch, 0)
      decreases count - i
    {
      var pass := fetch(i);
      ghost var before := events;
      ghost var step := Step(url, count, delay, i, pass);
      if pass.Failure? {
        events := events + [Request(url), Print(FetchError(pass.err))];
        assert Session(url, count, delay, fetch, i) == step;
        return;
      }
      events := events + [Request(url), Print(Password(i + 1, pass.text))];
      if i < count - 1 {
        events := events + [Sleep(delay)];
      }
      assert events == before + step;
      AppendAssoc(before, step, Session(url, count, delay, fetch, i + 1));
      i := i + 1;
    }
  }

  lemma AppendAssoc<T>(a: seq<T>, b: seq<T>, c: seq<T>)
    ensures (a + b) + c == a + (b + c)
  {
  }

  /** The flags of one run. */
  datatype Flags = Flags(complexity: string, count: int, delay: int, length: int,
                         useSymbols: bool, useNumbers: bool, useCapitals: bool)

  /** `main` after flag parsing, with `getPassword`'s results as input: a bad
      complexity stops before any request. */
  method Program(flags: Flags, fetch: nat -> Response) returns (events: seq<Event>)
    ensures var b := BuildUrl(flags.complexity, flags.length, flags.useSymbols, flags.useNumbers, flags.useCapitals);
            && (b.err.Some? ==> events == [Print(UrlError(b.err.value))])
            && (b.err.Some? ==> Render(events[0].line) == "Error: invalid complexity: " + flags.complexity)
            && (b.err.None? ==> events == Session(b.url, flags.count, flags.delay, fetch, 0))
  {
    var b := BuildUrl(flags.complexity, flags.length, flags.useSymbols, flags.useNumbers, flags.useCapitals);
    if b.err.Some? {
      return [Print(UrlError(b.err.value))];
    }
    events := Generate(b.url, flags.count, flags.delay, fetch);
  }

  // Counting

  function Requests(events: seq<Event>): nat {
    if events == [] then 0 else (if events[0].Request? then 1 else 0) + Requests(events[1..])
  }

  function Sleeps(events: seq<Event>): nat {
    if events == [] then 0 else (if events[0].Sleep? then 1 else 0) + Sleeps(events[1..])
  }

  /** The printed lines, in order. */
  function Lines(events: seq<Event>): seq<Line> {
    if events == [] then [] else (if events[0].Print? then [events[0].line] else []) + Lines(events[1..])
  }

  lemma {:induction false} CountsAppend(a: seq<Event>, b: seq<Event>)
    ensures Requests(a + b) == Requests(a) + Requests(b)
    ensures Sleeps(a + b) == Sleeps(a) + Sleeps(b)
    ensures Lines(a + b) == Lines(a) + Lines(b)
  {
    if a != [] {
      assert (a + b)[1..] == a[1..] + b;
      CountsAppend(a[1..], b);
    } else {
      assert a + b == b;
    }
  }

  /** What one step contributes to the counts. */
  lemma StepCounts(url: string, count: int, delay: int, i: nat, pass: Response)
    ensures var st := Step(url, count, delay, i, pass);
            && Requests(st) == 1
            && Sleeps(st) == (if pass.Body? && i < count - 1 then 1 else 0)
            && Lines(st) == [st[1].line]
  {
    var st := Step(url, count, delay, i, pass);
    var tail := st[1..][1..];
    assert tail == (if pass.Body? && i < count - 1 then [Sleep(delay)] else []);
    assert Requests(tail) == 0 && Lines(tail) == [];
    assert Sleeps(tail) == |tail|;
    assert Requests(st[1..]) == Requests(tail);
    assert Sleeps(st[1..]) == Sleeps(tail);
    assert Lines(st[1..]) == [st[1].line] + Lines(tail);
  }

  predicate AllSucceed(fetch: nat -> Response, from: nat, count: int) {
    forall j: nat :: from <= j < count ==> fetch(j).Body?
  }

  function Max0(x: int): nat {
    if x < 0 then 0 else x
  }

  /** When every response succeeds there are max(count, 0) requests and one
      sleep between each two of them. */
  lemma {:induction false} AllSucceedCounts(url: string, count: int, delay: int, fetch: nat -> Response, i: nat)
    requires AllSucceed(fetch, i, count)
    ensures Requests(Session(url, count, delay, fetch, i)) == Max0(count - i)
    ensures Sleeps(Session(url, count, delay, fetch, i)) == Max0(count - i - 1)
    decreases count - i
  {
    if i < count {
      var pass := fetch(i);
      AllSucceedCounts(url, count, delay, fetch, i + 1);
      StepCounts(url, count, delay, i, pass);
      CountsAppend(Step(url, count, delay, i, pass), Session(url, count, delay, fetch, i + 1));
    }
  }

  /** The line of a successful request `k`: its number `k+1` and the password. */
  function Expected(fetch: nat -> Response, k: nat): Line
    requires fetch(k).Body?
  {
    Password(k + 1, fetch(k).text)
  }

  /** When every response succeeds the lines are numbered i+1, i+2, ... up to
      count, each with its password. */
  lemma {:induction false} AllSucceedLines(url: string, count: int, delay: int, fetch: nat -> Response, i: nat)
    requires AllSucceed(fetch, i, count)
    ensures var lines := Lines(Session(url, count, delay, fetch, i));
            && |lines| == Max0(count - i)
            && forall k :: 0 <= k < |lines| ==> lines[k] == Expected(fetch, i + k)
    decreases count - i
  {
    if i < count {
      var rest := Lines(Session(url, count, delay, fetch, i + 1));
      AllSucceedLines(url, count, delay, fetch, i + 1);
      LinesStep(url, count, delay, fetch, i);
      var lines := Lines(Session(url, count, delay, fetch, i));
      forall k | 1 <= k < |lines| ensures lines[k] == Expected(fetch, i + k) {
        assert lines[k] == rest[k - 1];
      }
    }
  }

  /** A successful request adds its own line in front of the later ones. */
  lemma LinesStep(url: string, count: int, delay: int, fetch: nat -> Response, i: nat)
    requires i < count && fetch(i).Body?
    ensures Lines(Session(url, count, delay, fetch, i))
         == [Expected(fetch, i)] + Lines(Session(url, count, delay, fetch, i + 1))
  {
    var pass := fetch(i);
    var rest := Session(url, count, delay, fetch, i + 1);
    StepCounts(url, count, delay, i, pass);
    CountsAppend(Step(url, count, delay, i, pass), rest);
    assert Session(url, count, delay, fetch, i) == Step(url, count, delay, i, pass) + rest;
  }

  /** The printed text of an all-success session: `[1] p1`, `[2] p2`, ... */
  lemma AllSucceedOutput(url: string, count: int, delay: int, fetch: nat -> Response)
    requires AllSucceed(fetch, 0, count)
    ensures forall k :: 0 <= k < |Lines(Session(url, count, delay, fetch, 0))| ==>
              && fetch(k).Body?
              && Render(Lines(Session(url, count, delay, fetch, 0))[k]) == "[" + Text.Decimal(k + 1) + "] " + fetch(k).text
  {
    var lines := Lines(Session(url, count, delay, fetch, 0));
    AllSucceedLines(url, count, delay, fetch, 0);
    forall k | 0 <= k < |lines|
      ensures fetch(k).Body? && Render(lines[k]) == "[" + Text.Decimal(k + 1) + "] " + fetch(k).text
    {
      assert lines[k] == Expected(fetch, k);
    }
  }

  /** The first failing response ends the session: it is the last request and
      its error is the last line ... */
  lemma {:induction false} StopsAtFirstError(url: string, count: int, delay: int, fetch: nat -> Response,
                                             i: nat, j: nat)
    requires i <= j < count && AllSucceed(fetch, i, j) && fetch(j).Failure?
    ensures var s := Session(url, count, delay, fetch, i);
            && |s| >= 2
            && s[|s| - 1] == Print(FetchError(fetch(j).err))
            && s[|s| - 2] == Request(url)
    decreases j - i
  {
    var s := Session(url, count, delay, fetch, i);
    if i < j {
      assert fetch(i).Body?;
      var head := Step(url, count, delay, i, fetch(i));
      var rest := Session(url, count, delay, fetch, i + 1);
      StopsAtFirstError(url, count, delay, fetch, i + 1, j);
      assert s == head + rest;
      LastTwoOfAppend(head, rest);
    } else {
      assert s == Step(url, count, delay, j, fetch(j));
    }
  }

  lemma LastTwoOfAppend<T>(a: seq<T>, b: seq<T>)
    requires |b| >= 2
    ensures var s := a + b; |s| >= 2 && s[|s| - 1] == b[|b| - 1] && s[|s| - 2] == b[|b| - 2]
  {
  }

  /** The last printed text of a failed session is that error. */
  lemma FirstErrorOutput(url: string, count: int, delay: int, fetch: nat -> Response, j: nat)
    requires j < count && AllSucceed(fetch, 0, j) && fetch(j).Failure?
    ensures var s := Session(url, count, delay, fetch, 0);
            && s != [] && s[|s| - 1].Print?
            && Render(s[|s| - 1].line) == "Error generating password: " + fetch(j).err
  {
    StopsAtFirstError(url, count, delay, fetch, 0, j);
  }

  /** ... after exactly one request per response up to and including it. */
  lemma {:induction false} RequestsUntilError(url: string, count: int, delay: int, fetch: nat -> Response,
                                              i: nat, j: nat)
    requires i <= j < count && AllSucceed(fetch, i, j) && fetch(j).Failure?
    ensures Requests(Session(url, count, delay, fetch, i)) == j - i + 1
    decreases j - i
  {
    StepCounts(url, count, delay, i, fetch(i));
    if i < j {
      RequestsUntilError(url, count, delay, fetch, i + 1, j);
      CountsAppend(Step(url, count, delay, i, fetch(i)), Session(url, count, delay, fetch, i + 1));
    }
  }

  /** A session prints only the passwords it was given ... */
  lemma {:induction false} PrintedPasswordsFrom(url: string, count: int, delay: int,
                                                fetch: nat -> Response, i: nat)
    ensures forall k :: 0 <= k < |Lines(Session(url, count, delay, fetch, i))|
                        && Lines(Session(url, count, delay, fetch, i))[k].Password? ==>
              exists j: nat :: i <= j < count && fetch(j) == Body(Lines(Session(url, count, delay, fetch, i))[k].text)
    decreases count - i
  {
    if i < count {
      var head := Step(url, count, delay, i, fetch(i));
      StepCounts(url, count, delay, i, fetch(i));
      if fetch(i).Body? {
        var rest := Session(url, count, delay, fetch, i + 1);
        PrintedPasswordsFrom(url, count, delay, fetch, i + 1);
        CountsAppend(head, rest);
        assert Session(url, count, delay, fetch, i) == head + rest;
        var lines := Lines(head + rest);
        assert lines[0] == Password(i + 1, fetch(i).text);
        forall k | 0 <= k < |lines| && lines[k].Password?
          ensures exists j: nat :: i <= j < count && fetch(j) == Body(lines[k].text)
        {
          if k > 0 {
            assert lines[k] == Lines(rest)[k - 1];
          } else {
            assert fetch(i) == Body(lines[k].text);
          }
        }
      }
    }
  }

  /** What `getPassword` returns on each request, given the raw responses. */
  function Passwords(raw: nat -> Response): nat -> Response {
    (k: nat) => GetPassword(raw(k))
  }

  /** ... so when they come from `getPassword`, no printed password starts or
      ends with white space. */
  lemma PrintedPasswordsTrimmed(url: string, count: int, delay: int, raw: nat -> Response)
    ensures forall k :: 0 <= k < |Lines(Session(url, count, delay, Passwords(raw), 0))|
                        && Lines(Session(url, count, delay, Passwords(raw), 0))[k].Password? ==>
              Text.Trimmed(Lines(Session(url, count, delay, Passwords(raw), 0))[k].text)
  {
    var fetch := Passwords(raw);
    PrintedPasswordsFrom(url, count, delay, fetch, 0);
    var lines := Lines(Session(url, count, delay, fetch, 0));
    forall k | 0 <= k < |lines| && lines[k].Password? ensures Text.Trimmed(lines[k].text) {
      var j: nat :| 0 <= j < count && fetch(j) == Body(lines[k].text);
      assert GetPassword(raw(j)) == Body(lines[k].text);
    }
  }

  /** A session that still has requests to make begins with one. */
  lemma SessionStartsWithRequest(url: string, count: int, delay: int, fetch: nat -> Response, i: nat)
    requires i < count
    ensures Session(url, count, delay, fetch, i) != []
    ensures Session(url, count, delay, fetch, i)[0] == Request(url)
  {
  }

  /** Sleeps happen only between requests: never first, never last, and always
      right before the next request. */
  lemma {:induction false} SleepsBetweenRequests(url: string, count: int, delay: int, fetch: nat -> Response, i: nat)
    ensures var s := Session(url, count, delay, fetch, i);
            forall k :: 0 <= k < |s| && s[k].Sleep? ==> 0 < k < |s| - 1 && s[k + 1] == Request(url)
    decreases count - i
  {
    var s := Session(url, count, delay, fetch, i);
    if i < count && fetch(i).Body? {
      var head := Step(url, count, delay, i, fetch(i));
      var rest := Session(url, count, delay, fetch, i + 1);
      assert s == head + rest;
      SleepsBetweenRequests(url, count, delay, fetch, i + 1);
      if i < count - 1 {
        SessionStartsWithRequest(url, count, delay, fetch, i + 1);
      }
      forall k | 0 <= k < |s| && s[k].Sleep?
        ensures 0 < k < |s| - 1 && s[k + 1] == Request(url)
      {
        if k >= |head| {
          assert s[k] == rest[k - |head|];
          assert s[k + 1] == rest[k + 1 - |head|];
        }
      }
    }
  }
}
