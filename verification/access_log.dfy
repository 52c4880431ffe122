/**
 * The access-log parser: a Common Log Format pattern searched in each line,
 * unmatched lines skipped, status and bytes converted to integers and the
 * raw time replaced by a parsed timestamp.
 */
module AccessLog {
  import opened Wrappers
  import opened Text
  import opened Seqs
  import opened Schema

  /** The named groups of the pattern, as matched text. */
  datatype Groups = Groups(
    ip: string, time: string, httpMethod: string, url: string,
    protocol: string, status: string, bytes: string)

  predicate NotSpace(c: char) { !IsSpace(c) }
  predicate NotCloseBracket(c: char) { c != ']' }
  predicate NotQuote(c: char) { c != '"' }

  /** Length of the longest prefix made of `ok` characters. */
  function RunLength(s: string, ok: char -> bool): (n: nat)
    ensures n <= |s|
    ensures forall k | 0 <= k < n :: ok(s[k])
    ensures n == |s| || !ok(s[n])
  {
    if |s| > 0 && ok(s[0]) then 1 + RunLength(s[1..], ok) else 0
  }

  /** A greedy `[ok]+`: the longest non-empty `ok` prefix and the rest.
      Every use below is followed by a character the class excludes, so a
      shorter choice can never let the rest of the pattern match: greedy
      matching never backtracks here. */
  function Run(s: string, ok: char -> bool): (r: Option<(string, string)>)
    ensures r.None? <==> |s| == 0 || !ok(s[0])
    ensures r.Some? ==> r.value.0 + r.value.1 == s && |r.value.0| > 0
    ensures r.Some? ==> forall k | 0 <= k < |r.value.0| :: ok(r.value.0[k])
    ensures r.Some? ==> r.value.1 == [] || !ok(r.value.1[0])
  {
    var n := RunLength(s, ok);
    if n == 0 then None
    else
      assert s[..n] + s[n..] == s;
      Some((s[..n], s[n..]))
  }

  /** A literal character. */
  function Lit(s: string, c: char): (r: Option<string>)
    ensures r.Some? <==> |s| > 0 && s[0] == c
    ensures r.Some? ==> [c] + r.value == s
  {
    if |s| > 0 && s[0] == c then
      assert [c] + s[1..] == s;
      Some(s[1..])
    else None
  }

  /** `\d{3}`. */
  function ThreeDigits(s: string): (r: Option<(string, string)>)
    ensures r.Some? ==> |r.value.0| == 3 && AllDigits(r.value.0) && r.value.0 + r.value.1 == s
  {
    if |s| >= 3 && IsDigit(s[0]) && IsDigit(s[1]) && IsDigit(s[2]) then
      assert s[..3] + s[3..] == s;
      Some((s[..3], s[3..]))
    else None
  }

  /** The groups are what the pattern can capture. */
  predicate Captured(g: Groups) {
    && |g.ip| > 0 && NoSpace(g.ip)
    && |g.time| > 0 && ']' !in g.time
    && |g.httpMethod| > 0 && NoSpace(g.httpMethod)
    && |g.url| > 0 && NoSpace(g.url)
    && |g.protocol| > 0 && '"' !in g.protocol
    && |g.status| == 3 && AllDigits(g.status)
    && |g.bytes| > 0 && NoSpace(g.bytes)
  }

  /** `(?P<ip>\S+) \S+ \S+ \[`: the client address, the two ignored
      identity fields and the opening bracket of the time. */
  function MatchHead(s: string): (r: Option<(string, string)>)
    ensures r.Some? ==> |r.value.0| > 0 && NoSpace(r.value.0)
  {
    var ip :- Run(s, NotSpace);
    var s1 :- Lit(ip.1, ' ');
    var ident :- Run(s1, NotSpace);
    var s2 :- Lit(ident.1, ' ');
    var user :- Run(s2, NotSpace);
    var s3 :- Lit(user.1, ' ');
    var s4 :- Lit(s3, '[');
    Some((ip.0, s4))
  }

  /** `(?P<time>[^\]]+)\] "`. */
  function MatchTime(s: string): (r: Option<(string, string)>)
    ensures r.Some? ==> |r.value.0| > 0 && ']' !in r.value.0
  {
    var time :- Run(s, NotCloseBracket);
    var s1 :- Lit(time.1, ']');
    var s2 :- Lit(s1, ' ');
    var s3 :- Lit(s2, '"');
    assert forall k | 0 <= k < |time.0| :: time.0[k] != ']';
    Some((time.0, s3))
  }

  /** `(?P<method>\S+) (?P<url>\S+) (?P<protocol>[^"]+)" `. */
  function MatchRequest(s: string): (r: Option<(string, string, string, string)>)
    ensures r.Some? ==> |r.value.0| > 0 && NoSpace(r.value.0)
    ensures r.Some? ==> |r.value.1| > 0 && NoSpace(r.value.1)
    ensures r.Some? ==> |r.value.2| > 0 && '"' !in r.value.2
  {
    var httpMethod :- Run(s, NotSpace);
    var s1 :- Lit(httpMethod.1, ' ');
    var url :- Run(s1, NotSpace);
    var s2 :- Lit(url.1, ' ');
    var protocol :- Run(s2, NotQuote);
    var s3 :- Lit(protocol.1, '"');
    var s4 :- Lit(s3, ' ');
    assert forall k | 0 <= k < |protocol.0| :: protocol.0[k] != '"';
    Some((httpMethod.0, url.0, protocol.0, s4))
  }

  /** `(?P<status>\d{3}) (?P<bytes>\S+)`; whatever follows is ignored. */
  function MatchTail(s: string): (r: Option<(string, string)>)
    ensures r.Some? ==> |r.value.0| == 3 && AllDigits(r.value.0)
    ensures r.Some? ==> |r.value.1| > 0 && NoSpace(r.value.1)
  {
    var status :- ThreeDigits(s);
    var s1 :- Lit(status.1, ' ');
    var bytes :- Run(s1, NotSpace);
    Some((status.0, bytes.0))
  }

  /** The pattern
        (?P<ip>\S+) \S+ \S+ \[(?P<time>[^\]]+)\] "(?P<method>\S+) (?P<url>\S+) (?P<protocol>[^"]+)" (?P<status>\d{3}) (?P<bytes>\S+)
      matched at the start of `s`. */
  function MatchPrefix(s: string): (r: Option<Groups>)
    ensures r.Some? ==> Captured(r.value)
  {
    var head :- MatchHead(s);
    var time :- MatchTime(head.1);
    var request :- MatchRequest(time.1);
    var tail :- MatchTail(request.3);
    Some(Groups(head.0, time.0, request.0, request.1, request.2, tail.0, tail.1))
  }

  /** `pattern.search(line)`: the match at the first start position,
      0 to |line|, where the pattern matches. */
  function Search(line: string): (r: Option<Groups>)
    ensures r.Some? <==> exists p: nat :: p <= |line| && MatchPrefix(line[p..]).Some?
    ensures r.Some? ==> exists p: nat :: p <= |line| && r == MatchPrefix(line[p..])
                          && forall q: nat :: q < p ==> MatchPrefix(line[q..]).None?
    decreases |line|
  {
    var m := MatchPrefix(line);
    if m.Some? then
      assert line[0..] == line;
      m
    else if |line| == 0 then
      None
    else
      var r := Search(line[1..]);
      if r.Some? then
        SearchFoundLater(line, r);
        r
      else
        SearchFoundNowhere(line);
        r
  }

  /** A match found in `line[1..]` is the first match of `line` when the
      pattern does not match at position 0. */
  lemma SearchFoundLater(line: string, r: Option<Groups>)
    requires |line| > 0 && MatchPrefix(line).None?
    requires exists p: nat :: p <= |line[1..]| && r == MatchPrefix(line[1..][p..]) && r.Some?
                             && forall q: nat :: q < p ==> MatchPrefix(line[1..][q..]).None?
    ensures exists p: nat :: p <= |line| && r == MatchPrefix(line[p..]) && r.Some?
                             && forall q: nat :: q < p ==> MatchPrefix(line[q..]).None?
  {
    var p: nat :| p <= |line[1..]| && r == MatchPrefix(line[1..][p..]) && r.Some?
                  && forall q: nat :: q < p ==> MatchPrefix(line[1..][q..]).None?;
    assert line[1..][p..] == line[p + 1..];
    forall q: nat | q < p + 1 ensures MatchPrefix(line[q..]).None? {
      if q == 0 {
        assert line[0..] == line;
      } else {
        assert line[1..][q - 1..] == line[q..];
      }
    }
  }

  /** No match anywhere in `line[1..]` nor at position 0 means none in `line`. */
  lemma SearchFoundNowhere(line: string)
    requires |line| > 0 && MatchPrefix(line).None?
    requires forall p: nat :: p <= |line[1..]| ==> MatchPrefix(line[1..][p..]).None?
    ensures forall p: nat :: p <= |line| ==> MatchPrefix(line[p..]).None?
  {
    forall p: nat | p <= |line| ensures MatchPrefix(line[p..]).None? {
      if p == 0 {
        assert line[0..] == line;
      } else {
        assert line[1..][p - 1..] == line[p..];
      }
    }
  }

  // ---------------------------------------------------------------------
  // Rendering a log line, and the matcher reading it back
  // ---------------------------------------------------------------------

  /** The Common Log Format line for the given groups, identity fields and
      trailing text. */
  function Render(g: Groups, ident: string, user: string, trailer: string): string {
    g.ip + ([' '] + (ident + ([' '] + (user + ([' '] + (['['] +
    (g.time + ([']'] + ([' '] + (['"'] +
    (g.httpMethod + ([' '] + (g.url + ([' '] + (g.protocol + (['"'] + ([' '] +
    (g.status + ([' '] + (g.bytes + trailer))))))))))))))))))))
  }

  lemma {:induction false} RunLengthOf(w: string, rest: string, ok: char -> bool)
    requires forall k | 0 <= k < |w| :: ok(w[k])
    requires rest == [] || !ok(rest[0])
    ensures RunLength(w + rest, ok) == |w|
  {
    if |w| > 0 {
      assert (w + rest)[1..] == w[1..] + rest;
      RunLengthOf(w[1..], rest, ok);
    } else {
      assert w + rest == rest;
    }
  }

  lemma RunOf(w: string, rest: string, ok: char -> bool)
    requires |w| > 0 && forall k | 0 <= k < |w| :: ok(w[k])
    requires rest == [] || !ok(rest[0])
    ensures Run(w + rest, ok) == Some((w, rest))
  {
    RunLengthOf(w, rest, ok);
    assert (w + rest)[..|w|] == w && (w + rest)[|w|..] == rest;
  }

  lemma LitOf(c: char, rest: string)
    ensures Lit([c] + rest, c) == Some(rest)
  {
    assert ([c] + rest)[1..] == rest;
  }

  lemma NoSpaceRun(w: string)
    requires NoSpace(w)
    ensures forall k | 0 <= k < |w| :: NotSpace(w[k])
  {
  }

  lemma MatchHeadOf(ip: string, ident: string, user: string, rest: string)
    requires |ip| > 0 && NoSpace(ip) && |ident| > 0 && NoSpace(ident) && |user| > 0 && NoSpace(user)
    ensures MatchHead(ip + ([' '] + (ident + ([' '] + (user + ([' '] + (['['] + rest))))))) == Some((ip, rest))
  {
    RunOf(ip, [' '] + (ident + ([' '] + (user + ([' '] + (['['] + rest))))), NotSpace);
    LitOf(' ', ident + ([' '] + (user + ([' '] + (['['] + rest)))));
    RunOf(ident, [' '] + (user + ([' '] + (['['] + rest))), NotSpace);
    LitOf(' ', user + ([' '] + (['['] + rest)));
    RunOf(user, [' '] + (['['] + rest), NotSpace);
    LitOf(' ', ['['] + rest);
    LitOf('[', rest);
  }

  lemma MatchTimeOf(time: string, rest: string)
    requires |time| > 0 && ']' !in time
    ensures MatchTime(time + ([']'] + ([' '] + (['"'] + rest)))) == Some((time, rest))
  {
    RunOf(time, [']'] + ([' '] + (['"'] + rest)), NotCloseBracket);
    LitOf(']', [' '] + (['"'] + rest));
    LitOf(' ', ['"'] + rest);
    LitOf('"', rest);
  }

  lemma MatchRequestOf(m: string, url: string, protocol: string, rest: string)
    requires |m| > 0 && NoSpace(m) && |url| > 0 && NoSpace(url) && |protocol| > 0 && '"' !in protocol
    ensures MatchRequest(m + ([' '] + (url + ([' '] + (protocol + (['"'] + ([' '] + rest)))))))
            == Some((m, url, protocol, rest))
  {
    RunOf(m, [' '] + (url + ([' '] + (protocol + (['"'] + ([' '] + rest))))), NotSpace);
    LitOf(' ', url + ([' '] + (protocol + (['"'] + ([' '] + rest)))));
    RunOf(url, [' '] + (protocol + (['"'] + ([' '] + rest))), NotSpace);
    LitOf(' ', protocol + (['"'] + ([' '] + rest)));
    RunOf(protocol, ['"'] + ([' '] + rest), NotQuote);
    LitOf('"', [' '] + rest);
    LitOf(' ', rest);
  }

  lemma MatchTailOf(status: string, bytes: string, trailer: string)
    requires |status| == 3 && AllDigits(status) && |bytes| > 0 && NoSpace(bytes)
    requires trailer == [] || IsSpace(trailer[0])
    ensures MatchTail(status + ([' '] + (bytes + trailer))) == Some((status, bytes))
  {
    var s := status + ([' '] + (bytes + trailer));
    assert s[..3] == status && s[3..] == [' '] + (bytes + trailer);
    LitOf(' ', bytes + trailer);
    RunOf(bytes, trailer, NotSpace);
  }

  /** Reading a rendered line gives back its groups, whatever identity
      fields it carries, as long as the bytes field ends at a whitespace
      character or at the end of the line. */
  lemma MatchRender(g: Groups, ident: string, user: string, trailer: string)
    requires Captured(g)
    requires |ident| > 0 && NoSpace(ident) && |user| > 0 && NoSpace(user)
    requires trailer == [] || IsSpace(trailer[0])
    ensures MatchPrefix(Render(g, ident, user, trailer)) == Some(g)
    ensures Search(Render(g, ident, user, trailer)) == Some(g)
  {
    var tail := g.status + ([' '] + (g.bytes + trailer));
    var request := g.httpMethod + ([' '] + (g.url + ([' '] + (g.protocol + (['"'] + ([' '] + tail))))));
    var time := g.time + ([']'] + ([' '] + (['"'] + request)));
    MatchHeadOf(g.ip, ident, user, time);
    MatchTimeOf(g.time, request);
    MatchRequestOf(g.httpMethod, g.url, g.protocol, tail);
    MatchTailOf(g.status, g.bytes, trailer);
  }

  lemma HeadParts(s: string) returns (ident: string, user: string)
    requires MatchHead(s).Some?
    ensures |ident| > 0 && NoSpace(ident) && |user| > 0 && NoSpace(user)
    ensures s == MatchHead(s).value.0 + ([' '] + (ident + ([' '] + (user + ([' '] + (['['] + MatchHead(s).value.1))))))
  {
    var ip := Run(s, NotSpace).value;
    var s1 := Lit(ip.1, ' ').value;
    var id := Run(s1, NotSpace).value;
    var s2 := Lit(id.1, ' ').value;
    var us := Run(s2, NotSpace).value;
    var s3 := Lit(us.1, ' ').value;
    var s4 := Lit(s3, '[').value;
    assert MatchHead(s) == Some((ip.0, s4));
    ident, user := id.0, us.0;
  }

  lemma TimeParts(s: string)
    requires MatchTime(s).Some?
    ensures s == MatchTime(s).value.0 + ([']'] + ([' '] + (['"'] + MatchTime(s).value.1)))
  {
    var time := Run(s, NotCloseBracket).value;
    var s1 := Lit(time.1, ']').value;
    var s2 := Lit(s1, ' ').value;
    var s3 := Lit(s2, '"').value;
    assert MatchTime(s) == Some((time.0, s3));
  }

  lemma RequestParts(s: string)
    requires MatchRequest(s).Some?
    ensures var r := MatchRequest(s).value;
      s == r.0 + ([' '] + (r.1 + ([' '] + (r.2 + (['"'] + ([' '] + r.3))))))
  {
    var m := Run(s, NotSpace).value;
    var s1 := Lit(m.1, ' ').value;
    var url := Run(s1, NotSpace).value;
    var s2 := Lit(url.1, ' ').value;
    var protocol := Run(s2, NotQuote).value;
    var s3 := Lit(protocol.1, '"').value;
    var s4 := Lit(s3, ' ').value;
    assert MatchRequest(s) == Some((m.0, url.0, protocol.0, s4));
  }

  lemma TailParts(s: string) returns (trailer: string)
    requires MatchTail(s).Some?
    ensures trailer == [] || IsSpace(trailer[0])
    ensures s == MatchTail(s).value.0 + ([' '] + (MatchTail(s).value.1 + trailer))
  {
    var status := ThreeDigits(s).value;
    var s1 := Lit(status.1, ' ').value;
    var bytes := Run(s1, NotSpace).value;
    assert MatchTail(s) == Some((status.0, bytes.0));
    trailer := bytes.1;
  }

  /** Conversely, every line the pattern matches at its start is a rendered
      line of its groups: the groups are the text of the line. */
  lemma MatchedLineIsRendered(s: string)
    requires MatchPrefix(s).Some?
    ensures exists ident: string, user: string, trailer: string ::
      && s == Render(MatchPrefix(s).value, ident, user, trailer)
      && |ident| > 0 && NoSpace(ident) && |user| > 0 && NoSpace(user)
      && (trailer == [] || IsSpace(trailer[0]))
  {
    var head := MatchHead(s).value;
    var time := MatchTime(head.1).value;
    var request := MatchRequest(time.1).value;
    var tail := MatchTail(request.3).value;
    var ident, user := HeadParts(s);
    TimeParts(head.1);
    RequestParts(time.1);
    var trailer := TailParts(request.3);
    var g := Groups(head.0, time.0, request.0, request.1, request.2, tail.0, tail.1);
    assert MatchPrefix(s) == Some(g);
    assert s == Render(g, ident, user, trailer);
  }

  // ---------------------------------------------------------------------
  // The batch: matched lines become rows
  // ---------------------------------------------------------------------

  /** One output row. The raw `time` text is gone; `timestamp` holds what
      the (unmodelled) `%d/%b/%Y:%H:%M:%S %z` parser made of it, None for
      text it could not parse. */
  datatype Record = Record(
    ip: string, httpMethod: string, url: string, protocol: string,
    status: int, bytes: int, timestamp: Option<Timestamp>)

  /** The match of one line as a sequence of at most one element. */
  function Found(line: string): (ms: seq<Groups>)
    ensures |ms| <= 1
    ensures |ms| == 1 <==> Search(line).Some?
    ensures forall k | 0 <= k < |ms| :: Captured(ms[k]) && Search(line) == Some(ms[k])
  {
    var m := Search(line);
    if m.Some? then [m.value] else []
  }

  /** The match of every line the pattern is found in, in line order. */
  function MatchAll(lines: seq<string>): (ms: seq<Groups>)
    ensures |ms| <= |lines|
    ensures forall k | 0 <= k < |ms| :: Captured(ms[k])
  {
    if |lines| == 0 then []
    else MatchAll(lines[..|lines| - 1]) + Found(lines[|lines| - 1])
  }

  lemma {:induction false} MatchAllAppend(a: seq<string>, b: seq<string>)
    ensures MatchAll(a + b) == MatchAll(a) + MatchAll(b)
  {
    if |b| == 0 {
      assert a + b == a;
    } else {
      var n := |b| - 1;
      assert (a + b)[..|a + b| - 1] == a + b[..n];
      assert (a + b)[|a + b| - 1] == b[n];
      MatchAllAppend(a, b[..n]);
      assert MatchAll(a + b) == MatchAll(a + b[..n]) + Found(b[n]);
    }
  }

  /** `replace("-", "0")` then Python `int()` on one bytes field. */
  function BytesValue(field: string): Option<int> {
    if field == "-" then Some(0) else ParseInt(field)
  }

  /** The range of the 64-bit integers `astype(int)` stores. */
  const INT64_MIN: int := -0x8000_0000_0000_0000
  const INT64_MAX: int := 0x7FFF_FFFF_FFFF_FFFF

  predicate InInt64(n: int) {
    INT64_MIN <= n <= INT64_MAX
  }

  /** A bytes field `astype(int)` accepts: integer text whose value fits. */
  predicate BytesOk(field: string) {
    BytesValue(field).Some? && InInt64(BytesValue(field).value)
  }

  /** The bytes field reads back the integer it was written from, and the
      placeholder `-` reads as 0. */
  lemma BytesValueOf(n: int)
    ensures BytesValue(ShowInt(n)) == Some(n)
    ensures BytesOk(ShowInt(n)) <==> InInt64(n)
    ensures BytesValue("-") == Some(0)
  {
    ParseShowInt(n);
  }

  /** One match as a row; fails on a bytes field that is not an integer
      (a `ValueError`) or whose value does not fit in 64 bits (an
      `OverflowError`). */
  function Convert(g: Groups, parseTime: string -> Option<Timestamp>): (r: Result<Record, Failure>)
    requires Captured(g)
    ensures r.Success? <==> BytesOk(g.bytes)
    ensures BytesValue(g.bytes).None? ==> r == Failure(BadInteger(g.bytes))
    ensures BytesValue(g.bytes).Some? && !BytesOk(g.bytes) ==> r == Failure(Overflow(g.bytes))
    ensures r.Success? ==> ParseInt(g.status) == Some(r.value.status) && 0 <= r.value.status <= 999
    ensures r.Success? ==> r.value.bytes == BytesValue(g.bytes).value && InInt64(r.value.bytes)
    ensures r.Success? ==> r.value.ip == g.ip && r.value.httpMethod == g.httpMethod && r.value.url == g.url
                           && r.value.protocol == g.protocol && r.value.timestamp == parseTime(g.time)
  {
    var bytes := BytesValue(g.bytes);
    if bytes.None? then Failure(BadInteger(g.bytes))
    else if !InInt64(bytes.value) then Failure(Overflow(g.bytes))
    else
      DigitsValueBound(g.status);
      assert Strip(g.status) == g.status;
      Success(Record(g.ip, g.httpMethod, g.url, g.protocol,
                        DigitsValue(g.status), bytes.value, parseTime(g.time)))
  }

  /** Position of the first bytes field `astype(int)` rejects, `|gs|`
      when there is none. */
  function FirstBad(gs: seq<Groups>): (k: nat)
    ensures k <= |gs|
    ensures forall j | 0 <= j < k :: BytesOk(gs[j].bytes)
    ensures k < |gs| ==> !BytesOk(gs[k].bytes)
  {
    if |gs| == 0 || !BytesOk(gs[0].bytes) then 0
    else
      assert forall j | 1 <= j < |gs| :: gs[1..][j - 1] == gs[j];
      FirstBad(gs[1..]) + 1
  }

  /** Column-wise conversion of all matches: one bad bytes field fails the
      whole batch, reporting the first one. */
  function ConvertAll(gs: seq<Groups>, parseTime: string -> Option<Timestamp>): (r: Result<seq<Record>, Failure>)
    requires forall k | 0 <= k < |gs| :: Captured(gs[k])
    ensures r.Success? <==> FirstBad(gs) == |gs|
    ensures r.Success? ==> |r.value| == |gs|
    ensures r.Success? ==> forall k | 0 <= k < |gs| :: Convert(gs[k], parseTime) == Success(r.value[k])
    ensures r.Failure? ==> Convert(gs[FirstBad(gs)], parseTime) == Failure(r.error)
  {
    if |gs| == 0 then Success([])
    else
      var head := Convert(gs[0], parseTime);
      if head.Failure? then Failure(head.error)
      else
        var rest := ConvertAll(gs[1..], parseTime);
        assert forall k | 1 <= k < |gs| :: gs[1..][k - 1] == gs[k];
        if rest.Failure? then Failure(rest.error)
        else Success([head.value] + rest.value)
  }

  /** The whole script: search every line, keep the matches, convert.
      With no match at all the table has no columns and reading its
      `status` column fails. */
  function ParseLog(lines: seq<string>, parseTime: string -> Option<Timestamp>): (r: Result<seq<Record>, Failure>)
    ensures MatchAll(lines) == [] <==> r == Failure(MissingColumn("status"))
    ensures MatchAll(lines) != [] ==> r == ConvertAll(MatchAll(lines), parseTime)
    ensures r.Success? ==> 0 < |r.value| <= |lines|
    ensures r.Success? ==> forall k | 0 <= k < |r.value| ::
              && NoSpace(r.value[k].ip) && NoSpace(r.value[k].httpMethod) && NoSpace(r.value[k].url)
              && 0 <= r.value[k].status <= 999
  {
    var ms := MatchAll(lines);
    if |ms| == 0 then Failure(MissingColumn("status"))
    else ConvertAll(ms, parseTime)
  }

  lemma MatchAllSingle(line: string)
    ensures MatchAll([line]) == Found(line)
  {
    assert [line][..0] == [];
  }

  lemma MatchAllSkips(before: seq<string>, line: string, after: seq<string>)
    requires Found(line) == []
    ensures MatchAll(before + [line] + after) == MatchAll(before + after)
  {
    var x := before + [line];
    MatchAllAppend(x, after);
    MatchAllAppend(before, [line]);
    MatchAllAppend(before, after);
    MatchAllSingle(line);
  }

  /** A line the pattern is not found in changes nothing: it yields no row
      and no error, wherever it stands. */
  lemma UnmatchedLineIgnored(before: seq<string>, line: string, after: seq<string>,
                             parseTime: string -> Option<Timestamp>)
    requires Search(line).None?
    ensures ParseLog(before + [line] + after, parseTime) == ParseLog(before + after, parseTime)
  {
    assert Found(line) == [];
    MatchAllSkips(before, line, after);
  }
}
