/**
 * The Windows authentication analyser: logon events from the Security
 * event log become rows with a user, a source address and a success bit;
 * four derived features are scored by the loaded detector.
 */
module WindowsAuth {
  import opened Wrappers
  import opened Text
  import opened Seqs
  import opened Schema
  import opened Scoring
  import opened Training

  /** Event identifiers of a successful and of a failed logon. */
  const LOGON_SUCCESS: int := 4624
  const LOGON_FAILURE: int := 4625
  /** More attempts than this from one source count as high. */
  const HIGH_ATTEMPTS: int := 5

  const UNKNOWN_USER: string := "Unknown"
  const LOCAL_ADDRESS: string := "Local"

  /** One entry of an event's insertion strings: a string, or any other
      value the event log hands back (a missing list reads as empty). */
  datatype Insertion = Word(s: string) | NotAString

  /** A Security-log event as queried. */
  datatype Event = Event(code: int, timeGenerated: string, insertions: seq<Insertion>)

  /** One logon event as the analyser records it. */
  datatype AuthEvent = AuthEvent(timestamp: Option<Timestamp>, user: string, srcIp: string, loginSuccess: int)

  /** A recorded event with its derived features. */
  datatype AuthRow = AuthRow(
    event: AuthEvent, loginAttempts: nat, hour: Value, day: Value, failedLogin: int, highAttempts: int)

  /** The features the loaded model expects, in order. */
  const AUTH_FEATURES: seq<string> := ["hour", "day", "failed_login", "high_attempts"]

  predicate IsLogon(e: Event) {
    e.code == LOGON_SUCCESS || e.code == LOGON_FAILURE
  }

  /** A string that names an account: it holds a backslash or an at-sign. */
  predicate LooksLikeUser(s: string) {
    '\\' in s || '@' in s
  }

  /** Four dot-separated parts, each a non-empty run of digits. The parts
      are not range-checked. */
  predicate LooksLikeIp(s: string) {
    var parts := Split(s, '.');
    |parts| == 4 && forall i | 0 <= i < 4 :: |parts[i]| > 0 && AllDigits(parts[i])
  }

  predicate Candidate(x: Insertion, p: string -> bool) {
    x.Word? && p(x.s)
  }

  /** Position of the first string entry that satisfies `p`. */
  function FirstCandidate(xs: seq<Insertion>, p: string -> bool): (r: Option<nat>)
    ensures r.Some? ==> r.value < |xs| && Candidate(xs[r.value], p)
    ensures r.Some? ==> forall j | 0 <= j < r.value :: !Candidate(xs[j], p)
    ensures r.None? <==> forall j | 0 <= j < |xs| :: !Candidate(xs[j], p)
  {
    if |xs| == 0 then None
    else if Candidate(xs[0], p) then Some(0)
    else
      match FirstCandidate(xs[1..], p)
      case None => None
      case Some(k) => Some(k + 1)
  }

  /** The account name: the first string holding `\` or `@`. */
  function DetectUser(xs: seq<Insertion>): (user: string)
    ensures user == UNKNOWN_USER <==> forall j | 0 <= j < |xs| :: !Candidate(xs[j], LooksLikeUser)
    ensures user != UNKNOWN_USER ==> exists k | 0 <= k < |xs| ::
      xs[k] == Word(user) && LooksLikeUser(user) && forall j | 0 <= j < k :: !Candidate(xs[j], LooksLikeUser)
  {
    assert !LooksLikeUser(UNKNOWN_USER);
    match FirstCandidate(xs, LooksLikeUser)
    case None => UNKNOWN_USER
    case Some(k) => xs[k].s
  }

  /** The source address: the first string that looks like a dotted quad. */
  function DetectIp(xs: seq<Insertion>): (ip: string)
    ensures ip == LOCAL_ADDRESS <==> forall j | 0 <= j < |xs| :: !Candidate(xs[j], LooksLikeIp)
    ensures ip != LOCAL_ADDRESS ==> exists k | 0 <= k < |xs| ::
      xs[k] == Word(ip) && LooksLikeIp(ip) && forall j | 0 <= j < k :: !Candidate(xs[j], LooksLikeIp)
  {
    assert Split(LOCAL_ADDRESS, '.') == [LOCAL_ADDRESS] by {
      SplitNoSeparator(LOCAL_ADDRESS, '.');
    }
    assert !LooksLikeIp(LOCAL_ADDRESS);
    match FirstCandidate(xs, LooksLikeIp)
    case None => LOCAL_ADDRESS
    case Some(k) => xs[k].s
  }

  /** Every four non-empty digit strings joined by dots look like an
      address, whatever their values. */
  lemma DottedQuadLooksLikeIp(a: string, b: string, c: string, d: string)
    requires |a| > 0 && |b| > 0 && |c| > 0 && |d| > 0
    requires AllDigits(a) && AllDigits(b) && AllDigits(c) && AllDigits(d)
    requires '.' !in a && '.' !in b && '.' !in c && '.' !in d
    ensures LooksLikeIp(Join([a, b, c, d], "."))
  {
    var parts := [a, b, c, d];
    forall i | 0 <= i < |parts| ensures '.' !in parts[i] {
    }
    SplitJoin(parts, '.');
  }

  /** Every string accepted as an address is four non-empty digit strings
      joined by dots. */
  lemma IpIsDottedQuad(s: string)
    requires LooksLikeIp(s)
    ensures var p := Split(s, '.');
      s == Join([p[0], p[1], p[2], p[3]], ".") && forall i | 0 <= i < 4 :: |p[i]| > 0 && AllDigits(p[i])
  {
    var p := Split(s, '.');
    assert p == [p[0], p[1], p[2], p[3]];
  }

  /** The timestamp text: everything before the first dot. */
  function BeforeFirstDot(s: string): (head: string)
    ensures '.' !in head
    ensures head == s || (|head| < |s| && s[..|head| + 1] == head + ".")
  {
    var parts := Split(s, '.');
    if |parts| == 1 then
      assert s == parts[0] by { SplitNoSeparator(s, '.'); }
      parts[0]
    else
      assert s == parts[0] + ['.'] + Join(parts[1..], ['.']);
      assert s[..|parts[0]| + 1] == parts[0] + ['.'];
      parts[0]
  }

  /** One logon event as recorded; `parseTime` is the `%Y%m%d%H%M%S`
      conversion, `None` standing for a failed parse. */
  function Record(e: Event, parseTime: string -> Option<Timestamp>): (a: AuthEvent)
    ensures a.timestamp == parseTime(BeforeFirstDot(e.timeGenerated))
    ensures a.user == DetectUser(e.insertions) && a.srcIp == DetectIp(e.insertions)
    ensures a.loginSuccess == 1 <==> e.code == LOGON_SUCCESS
    ensures a.loginSuccess == 0 || a.loginSuccess == 1
  {
    AuthEvent(parseTime(BeforeFirstDot(e.timeGenerated)), DetectUser(e.insertions),
              DetectIp(e.insertions), if e.code == LOGON_SUCCESS then 1 else 0)
  }

  /** The logon events of the query, in order, as recorded: the k-th
      record is the record of the k-th logon event. */
  function Collect(events: seq<Event>, parseTime: string -> Option<Timestamp>): (r: seq<AuthEvent>)
    ensures |r| == Count(events, IsLogon)
    ensures forall k | 0 <= k < |r| :: r[k] == Record(events[Indices(events, IsLogon)[k]], parseTime)
  {
    var logons := Filter(events, IsLogon);
    seq(|logons|, k requires 0 <= k < |logons| => Record(logons[k], parseTime))
  }

  function SourceIps(events: seq<AuthEvent>): (ips: seq<string>)
    ensures |ips| == |events|
    ensures forall i | 0 <= i < |events| :: ips[i] == events[i].srcIp
  {
    seq(|events|, i requires 0 <= i < |events| => events[i].srcIp)
  }

  /** The derived features: attempts per source address, hour, weekday, a
      failure flag and a high-attempts flag. */
  function Featurize(events: seq<AuthEvent>): (rows: seq<AuthRow>)
    ensures |rows| == |events|
    ensures forall i | 0 <= i < |events| :: rows[i].event == events[i]
    ensures forall i | 0 <= i < |events| ::
      rows[i].loginAttempts == CountEq(SourceIps(events), events[i].srcIp) &&
      1 <= rows[i].loginAttempts <= |events|
    ensures forall i, j | 0 <= i < |events| && 0 <= j < |events| && events[i].srcIp == events[j].srcIp ::
      rows[i].loginAttempts == rows[j].loginAttempts
    ensures forall i | 0 <= i < |events| ::
      rows[i].hour == HourOf(events[i].timestamp) && rows[i].day == DayOf(events[i].timestamp)
    ensures forall i | 0 <= i < |events| ::
      (rows[i].failedLogin == 1 <==> events[i].loginSuccess == 0) &&
      (rows[i].failedLogin == 0 || rows[i].failedLogin == 1)
    ensures forall i | 0 <= i < |events| ::
      (rows[i].highAttempts == 1 <==> rows[i].loginAttempts > HIGH_ATTEMPTS) &&
      (rows[i].highAttempts == 0 || rows[i].highAttempts == 1)
  {
    var ips := SourceIps(events);
    var counts := GroupCounts(ips);
    seq(|events|, i requires 0 <= i < |events| =>
      var e := events[i];
      AuthRow(e, counts[i], HourOf(e.timestamp), DayOf(e.timestamp),
              if e.loginSuccess == 0 then 1 else 0,
              if counts[i] > HIGH_ATTEMPTS then 1 else 0))
  }

  /** A row's model input, in the order of `AUTH_FEATURES`. */
  function Features(r: AuthRow): (v: seq<Value>)
    ensures |v| == |AUTH_FEATURES|
    ensures v[0] == r.hour && v[1] == r.day
    ensures v[2] == OfInt(r.failedLogin) && v[3] == OfInt(r.highAttempts)
    ensures IsOne(v[2]) <==> r.failedLogin == 1
    ensures IsOne(v[3]) <==> r.highAttempts == 1
  {
    [r.hour, r.day, OfInt(r.failedLogin), OfInt(r.highAttempts)]
  }

  /** `df[MODEL_FEATURES]`: one model input per row. */
  function FeatureMatrix(rows: seq<AuthRow>): (X: Matrix)
    ensures |X| == |rows|
    ensures forall i | 0 <= i < |rows| :: X[i] == Features(rows[i])
  {
    seq(|rows|, i requires 0 <= i < |rows| => Features(rows[i]))
  }

  /** The recorded rows and, aligned with them, the anomaly flags. */
  datatype Report = Report(rows: seq<AuthRow>, flags: seq<int>)

  /** The whole analysis. With no logon events nothing is scored; otherwise
      the detector scores every row. */
  function Analyze(events: seq<Event>, parseTime: string -> Option<Timestamp>, d: Detector): (r: Result<Report, Failure>)
    ensures Count(events, IsLogon) == 0 ==> r == Success(Report([], []))
    ensures r.Success? ==> |r.value.rows| == |r.value.flags| == Count(events, IsLogon)
    ensures r.Success? ==> r.value.rows == Featurize(Collect(events, parseTime))
    ensures r.Success? ==> forall i | 0 <= i < |r.value.flags| :: r.value.flags[i] == 0 || r.value.flags[i] == 1
    ensures r.Success? && |r.value.rows| > 0 ==>
      d.columns == AUTH_FEATURES && r.value.flags == Flags(d.predict(d.transform(FeatureMatrix(r.value.rows))))
    ensures Count(events, IsLogon) > 0 && d.columns != AUTH_FEATURES ==>
      r == Failure(SchemaMismatch(d.columns, AUTH_FEATURES))
    ensures Count(events, IsLogon) > 0 && d.columns == AUTH_FEATURES ==>
      var X := FeatureMatrix(Featurize(Collect(events, parseTime)));
      (r.Success? <==> |d.predict(d.transform(X))| == |X|)
    ensures r.Failure? ==> r.error == LengthMismatch || r.error == SchemaMismatch(d.columns, AUTH_FEATURES)
  {
    var rows := Featurize(Collect(events, parseTime));
    if |rows| == 0 then Success(Report([], []))
    else
      var X := FeatureMatrix(rows);
      var preds :- Predict(d, AUTH_FEATURES, X);
      Success(Report(rows, Flags(preds)))
  }

  /** The anomalies export: the flagged rows, in order. */
  function Anomalies(report: Report): (r: seq<AuthRow>)
    requires |report.rows| == |report.flags|
    ensures |r| == Count(report.flags, IsAnomaly) <= |report.rows|
    ensures forall k | 0 <= k < |r| :: r[k] == report.rows[AnomalyIndices(report.flags)[k]]
  {
    Flagged(report.rows, report.flags)
  }

  /** Without logon events the outcome does not depend on the detector:
      the empty table is never scored. */
  lemma {:induction false} NoLogonsNeverScored(events: seq<Event>, parseTime: string -> Option<Timestamp>, d1: Detector, d2: Detector)
    requires forall i | 0 <= i < |events| :: !IsLogon(events[i])
    ensures Analyze(events, parseTime, d1) == Analyze(events, parseTime, d2) == Success(Report([], []))
  {
    NoneCounted(events, IsLogon);
  }

  /** The scaler the strict training script saves was fitted on the twelve
      web-log feature columns, not on the four columns scored here: every
      batch with a logon event is refused. */
  lemma SavedDetectorRefusesLogons<M, S>(events: seq<Event>, parseTime: string -> Option<Timestamp>,
                                        run: StrictRun<M, S>, forest: Forest<M>, scaler: Standardizer<S>)
    requires Count(events, IsLogon) > 0
    ensures Analyze(events, parseTime, Saved(run, forest, scaler)) == Failure(SchemaMismatch(FEATURE_NAMES, AUTH_FEATURES))
  {
    assert |AUTH_FEATURES| != |FEATURE_NAMES|;
  }

  /** With a scaler fitted on the four authentication columns, every batch
      with a logon event is scored, row by row, when the model returns one
      prediction per row. */
  lemma AuthFittedDetectorScores(events: seq<Event>, parseTime: string -> Option<Timestamp>, d: Detector)
    requires Count(events, IsLogon) > 0 && d.columns == AUTH_FEATURES
    requires |d.predict(d.transform(FeatureMatrix(Featurize(Collect(events, parseTime)))))| == Count(events, IsLogon)
    ensures var r := Analyze(events, parseTime, d);
      r.Success? && |r.value.flags| == Count(events, IsLogon) &&
      r.value.flags == Flags(d.predict(d.transform(FeatureMatrix(r.value.rows))))
  {
  }
}
