/**
 * The web feature extractor: each parsed access-log row becomes one
 * twelve-column feature vector; `requests_per_ip` is counted over the
 * whole batch.
 */
module WebFeatures {
  import opened Wrappers
  import opened Text
  import opened Seqs
  import opened Schema
  import AccessLog

  const ERROR_STATUS: int := 400
  const SERVER_ERROR_STATUS: int := 500
  const LARGE_TRANSFER_BYTES: int := 10000

  /** The regex `.exe` under IGNORECASE matches with its `e` at index `k`:
      some character other than a newline, then e, x, e in any case. */
  ghost predicate ExeAt(url: string, k: nat) {
    && 1 <= k && k + 3 <= |url|
    && url[k - 1] != '\n'
    && MatchesIgnoreCase(url[k], 'e')
    && MatchesIgnoreCase(url[k + 1], 'x')
    && MatchesIgnoreCase(url[k + 2], 'e')
  }

  /** The regex `admin` under IGNORECASE matches at index `k`. */
  ghost predicate AdminAt(url: string, k: nat) {
    && k + 5 <= |url|
    && MatchesIgnoreCase(url[k], 'a')
    && MatchesIgnoreCase(url[k + 1], 'd')
    && MatchesIgnoreCase(url[k + 2], 'm')
    && MatchesIgnoreCase(url[k + 3], 'i')
    && MatchesIgnoreCase(url[k + 4], 'n')
  }

  lemma ExeSearch(url: string)
    ensures ContainsIgnoreCase(url, ".exe") <==> exists k: nat :: ExeAt(url, k)
  {
    var atoms := Compile(".exe");
    assert |atoms| == 4;
    assert atoms[0] == AnyChar && atoms[1] == Literal('e') && atoms[2] == Literal('x') && atoms[3] == Literal('e');
    if ContainsIgnoreCase(url, ".exe") {
      var j: nat :| OccursAt(url, j, atoms);
      assert AtomMatches(atoms[0], url[j]) && AtomMatches(atoms[1], url[j + 1]);
      assert AtomMatches(atoms[2], url[j + 2]) && AtomMatches(atoms[3], url[j + 3]);
      assert ExeAt(url, j + 1);
    }
    if exists k: nat :: ExeAt(url, k) {
      var k: nat :| ExeAt(url, k);
      assert OccursAt(url, k - 1, atoms);
    }
  }

  lemma AdminSearch(url: string)
    ensures ContainsIgnoreCase(url, "admin") <==> exists k: nat :: AdminAt(url, k)
  {
    var atoms := Compile("admin");
    assert |atoms| == 5;
    assert atoms[0] == Literal('a') && atoms[1] == Literal('d') && atoms[2] == Literal('m');
    assert atoms[3] == Literal('i') && atoms[4] == Literal('n');
    if ContainsIgnoreCase(url, "admin") {
      var j: nat :| OccursAt(url, j, atoms);
      assert AtomMatches(atoms[0], url[j]) && AtomMatches(atoms[1], url[j + 1]);
      assert AtomMatches(atoms[2], url[j + 2]) && AtomMatches(atoms[3], url[j + 3]);
      assert AtomMatches(atoms[4], url[j + 4]);
      assert AdminAt(url, j);
    }
    if exists k: nat :: AdminAt(url, k) {
      var k: nat :| AdminAt(url, k);
      assert OccursAt(url, k, atoms);
    }
  }

  /** The features of one row, given its IP's request count in the batch. */
  function Featurize(r: AccessLog.Record, requestsPerIp: nat): (fv: FeatureVector)
    ensures fv.hour == HourOf(r.timestamp) && fv.day == DayOf(r.timestamp)
    ensures fv.bytes == OfInt(r.bytes)
    ensures IsOne(fv.isError) <==> r.status >= ERROR_STATUS
    ensures IsOne(fv.isServerError) <==> r.status >= SERVER_ERROR_STATUS
    ensures IsOne(fv.isServerError) ==> IsOne(fv.isError)
    ensures IsOne(fv.largeTransfer) <==> r.bytes > LARGE_TRANSFER_BYTES
    ensures fv.urlLength == OfInt(|r.url|)
    ensures fv.requestsPerIp == OfInt(requestsPerIp)
    ensures IsOne(fv.isPost) <==> r.httpMethod == "POST"
    ensures IsOne(fv.isGet) <==> r.httpMethod == "GET"
    ensures !(IsOne(fv.isPost) && IsOne(fv.isGet))
    ensures IsOne(fv.isExe) <==> exists k: nat :: ExeAt(r.url, k)
    ensures IsOne(fv.isAdmin) <==> exists k: nat :: AdminAt(r.url, k)
  {
    ExeSearch(r.url);
    AdminSearch(r.url);
    FeatureVector(
      hour := HourOf(r.timestamp),
      day := DayOf(r.timestamp),
      bytes := OfInt(r.bytes),
      isError := Flag(r.status >= ERROR_STATUS),
      isServerError := Flag(r.status >= SERVER_ERROR_STATUS),
      largeTransfer := Flag(r.bytes > LARGE_TRANSFER_BYTES),
      urlLength := OfInt(|r.url|),
      requestsPerIp := OfInt(requestsPerIp),
      isPost := Flag(r.httpMethod == "POST"),
      isGet := Flag(r.httpMethod == "GET"),
      isExe := Flag(ContainsIgnoreCase(r.url, ".exe")),
      isAdmin := Flag(ContainsIgnoreCase(r.url, "admin")))
  }

  function Ips(batch: seq<AccessLog.Record>): (ips: seq<string>)
    ensures |ips| == |batch|
    ensures forall i | 0 <= i < |batch| :: ips[i] == batch[i].ip
  {
    seq(|batch|, i requires 0 <= i < |batch| => batch[i].ip)
  }

  /** The feature table: one row per input row, in input order;
      `requests_per_ip` counts the rows of the whole batch with that IP. */
  function Extract(batch: seq<AccessLog.Record>): (rows: seq<FeatureVector>)
    ensures |rows| == |batch|
    ensures forall i | 0 <= i < |batch| ::
              rows[i] == Featurize(batch[i], CountEq(Ips(batch), batch[i].ip))
    ensures forall i | 0 <= i < |batch| ::
              rows[i].requestsPerIp.Num? && 1.0 <= rows[i].requestsPerIp.x <= |batch| as real
    ensures forall i, j | 0 <= i < |batch| && 0 <= j < |batch| && batch[i].ip == batch[j].ip ::
              rows[i].requestsPerIp == rows[j].requestsPerIp
  {
    var ips := Ips(batch);
    var rows := seq(|batch|, i requires 0 <= i < |batch| => Featurize(batch[i], CountEq(ips, ips[i])));
    RequestCounts(batch, rows);
    rows
  }

  lemma RequestCounts(batch: seq<AccessLog.Record>, rows: seq<FeatureVector>)
    requires |rows| == |batch|
    requires forall i | 0 <= i < |batch| :: rows[i].requestsPerIp == OfInt(CountEq(Ips(batch), Ips(batch)[i]))
    ensures forall i | 0 <= i < |batch| ::
              rows[i].requestsPerIp.Num? && 1.0 <= rows[i].requestsPerIp.x <= |batch| as real
    ensures forall i, j | 0 <= i < |batch| && 0 <= j < |batch| && batch[i].ip == batch[j].ip ::
              rows[i].requestsPerIp == rows[j].requestsPerIp
  {
    var ips := Ips(batch);
    var counts := GroupCounts(ips);
    forall i | 0 <= i < |batch|
      ensures rows[i].requestsPerIp.Num? && 1.0 <= rows[i].requestsPerIp.x <= |batch| as real
    {
      assert counts[i] == CountEq(ips, ips[i]) && 1 <= counts[i] <= |batch|;
    }
    forall i, j | 0 <= i < |batch| && 0 <= j < |batch| && batch[i].ip == batch[j].ip
      ensures rows[i].requestsPerIp == rows[j].requestsPerIp
    {
      assert counts[i] == counts[j];
    }
  }

  /** `requests_per_ip` is the number of rows sharing the IP. */
  lemma RequestsPerIpIsGroupSize(batch: seq<AccessLog.Record>, i: nat)
    requires i < |batch|
    ensures Extract(batch)[i].requestsPerIp == OfInt(|set j: nat | j < |batch| && batch[j].ip == batch[i].ip|)
  {
    var ips := Ips(batch);
    CountEqIsCardinality(ips, batch[i].ip);
    assert Positions(ips, batch[i].ip) == set j: nat | j < |batch| && batch[j].ip == batch[i].ip;
  }

  /** Concrete batch: IPs A, A, B give request counts 2, 2, 1. */
  lemma RequestsPerIpExample(a: AccessLog.Record, b: AccessLog.Record, c: AccessLog.Record)
    requires a.ip == b.ip != c.ip
    ensures var rows := Extract([a, b, c]);
      rows[0].requestsPerIp == OfInt(2) && rows[1].requestsPerIp == OfInt(2) && rows[2].requestsPerIp == OfInt(1)
  {
    var ips := Ips([a, b, c]);
    assert ips == [a.ip, a.ip, c.ip];
    GroupCountsExample(a.ip, c.ip);
    assert CountEq(ips, a.ip) == GroupCounts(ips)[0] == 2;
    assert CountEq(ips, c.ip) == GroupCounts(ips)[2] == 1;
    var rows := Extract([a, b, c]);
    assert rows[0] == Featurize(a, 2) && rows[1] == Featurize(b, 2) && rows[2] == Featurize(c, 1);
  }

  /** `.exe` needs a character before the `exe`: a URL that is just "exe"
      is not flagged. */
  lemma ExeNotAtStart()
    ensures !ContainsIgnoreCase("exe", ".exe")
  {
    ExeSearch("exe");
  }

  /** Any character but a newline, not only a dot, may precede the
      `exe`, and the letters may be in any case. */
  lemma ExeAfterAnyCharacter(c: char, rest: string)
    requires c != '\n'
    ensures ContainsIgnoreCase([c] + "EXE" + rest, ".exe")
  {
    var url := [c] + "EXE" + rest;
    ExeSearch(url);
    assert url[0] == c && url[1] == 'E' && url[2] == 'X' && url[3] == 'E';
    assert ExeAt(url, 1);
  }
}
