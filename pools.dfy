/**
 * The two connection pools behind a DB, as records: the DSN each was opened
 * with, its limits, and whether it has been closed. Also the DSN strings Open
 * builds and how the driver reads their query parameters.
 */
module Pools {
  import opened Wrappers
  import opened Errors

  /**
   * A *sql.DB handle. Lifetimes and idle times are durations in nanoseconds,
   * 0 meaning no limit; maxOpen 0 means unlimited.
   */
  datatype Pool = Pool(dsn: string, maxOpen: int, maxIdle: int, maxLifetime: int, maxIdleTime: int, closed: bool)

  /** database/sql keeps two idle connections unless told otherwise. */
  const DefaultMaxIdle := 2

  /** sql.Open("sqlite3", dsn) when it succeeds: a fresh pool with database/sql's defaults. */
  function OpenedPool(dsn: string): (p: Pool)
    ensures p.dsn == dsn && !p.closed && WellLimited(p)
    ensures p.maxOpen == 0 && p.maxIdle == DefaultMaxIdle && p.maxLifetime == 0 && p.maxIdleTime == 0
  {
    Pool(dsn, 0, DefaultMaxIdle, 0, 0, false)
  }

  /**
   * The limits database/sql keeps: none negative (0 means unlimited, or no
   * idle connection), and never more idle connections than a positive
   * open-connection limit.
   */
  predicate WellLimited(p: Pool) {
    p.maxOpen >= 0 && p.maxIdle >= 0 && p.maxLifetime >= 0 && p.maxIdleTime >= 0
    && (p.maxOpen > 0 ==> p.maxIdle <= p.maxOpen)
  }

  /** The pool is there and not closed (a non-nil, open *sql.DB). */
  predicate Live(p: Option<Pool>) {
    p.Some? && !p.value.closed
  }

  /**
   * (*sql.DB).Close: the pool ends closed whatever happens; closing an open
   * pool reports the driver's error, if any, and closing a closed one reports
   * nothing.
   */
  function ClosePool(p: Pool, closeErr: Option<Error>): (r: (Pool, Option<Error>))
    ensures r.0 == p.(closed := true)
    ensures r.1.Some? <==> !p.closed && closeErr.Some?
    ensures r.1.Some? ==> r.1 == closeErr
  {
    if p.closed then (p.(closed := true), None) else (p.(closed := true), closeErr)
  }

  const MemoryMarker := ":memory:"

  /** A key=value pair of a DSN's query. */
  type Setting = (string, string)

  /** Settings joined into query text: key=value pairs separated by '&'. */
  function QueryText(settings: seq<Setting>): string {
    if settings == [] then ""
    else if |settings| == 1 then settings[0].0 + "=" + settings[0].1
    else settings[0].0 + "=" + settings[0].1 + "&" + QueryText(settings[1..])
  }

  /** Settings as the driver sees them, the first of repeated keys winning. */
  function SettingsMap(settings: seq<Setting>): map<string, string> {
    if settings == [] then map[] else SettingsMap(settings[1..])[settings[0].0 := settings[0].1]
  }

  /** A pair that survives being joined: no separator in the key, no '&' in the value. */
  predicate PlainSetting(s: Setting) {
    '=' !in s.0 && '&' !in s.0 && '&' !in s.1
  }

  /** What Open asks of every file database: WAL journal, foreign keys, 5000 ms busy timeout. */
  const WalSettings: seq<Setting> := [("_journal_mode", "wal"), ("_foreign_keys", "on"), ("_busy_timeout", "5000")]

  const ReadOnlySetting: Setting := ("mode", "ro")

  const MemorySettings: seq<Setting> := [("cache", "shared"), ("_foreign_keys", "on")]

  /** The shared-cache in-memory database both pools use for ":memory:". */
  const MemoryDsn := "file::memory:" + "?" + QueryText(MemorySettings)

  /** The query of a file database's DSN, as Open writes it out. */
  const WalQuery := "_journal_mode=wal&_foreign_keys=on&_busy_timeout=5000"

  const WalParameters := "?" + WalQuery

  const ReadOnlyParameter := "&" + ReadOnlySetting.0 + "=" + ReadOnlySetting.1

  /** The writer's DSN for a file database. */
  function WriteDsn(dsn: string): string {
    dsn + WalParameters
  }

  /** The reader's DSN for a file database: the writer's, with `mode=ro` appended. */
  function ReadDsn(dsn: string): string {
    WriteDsn(dsn) + ReadOnlyParameter
  }

  // database/sql's pool setters. A limit of 0 or less on open connections
  // means none; the idle limit never exceeds a positive open limit; negative
  // durations count as 0, which means no limit.

  /**
   * (*sql.DB).SetMaxOpenConns: a limit that is not positive means unlimited;
   * a positive limit below the idle limit lowers the idle limit to it.
   */
  function SetMaxOpenConns(p: Pool, n: int): (r: Pool)
    ensures n > 0 ==> r.maxOpen == n
    ensures n <= 0 ==> r.maxOpen == 0
    ensures r.maxOpen > 0 && p.maxIdle > r.maxOpen ==> r.maxIdle == r.maxOpen
    ensures !(r.maxOpen > 0 && p.maxIdle > r.maxOpen) ==> r.maxIdle == p.maxIdle
    ensures r == p.(maxOpen := r.maxOpen, maxIdle := r.maxIdle)
    ensures WellLimited(p) ==> WellLimited(r)
  {
    var open := if n > 0 then n else 0;
    p.(maxOpen := open, maxIdle := if open > 0 && p.maxIdle > open then open else p.maxIdle)
  }

  /**
   * (*sql.DB).SetMaxIdleConns: a limit that is not positive keeps no idle
   * connection; one above a positive open limit is cut down to it.
   */
  function SetMaxIdleConns(p: Pool, n: int): (r: Pool)
    ensures n <= 0 ==> r.maxIdle == 0
    ensures n > 0 && (p.maxOpen <= 0 || n <= p.maxOpen) ==> r.maxIdle == n
    ensures n > 0 && p.maxOpen > 0 && n > p.maxOpen ==> r.maxIdle == p.maxOpen
    ensures r == p.(maxIdle := r.maxIdle)
    ensures WellLimited(p) ==> WellLimited(r)
  {
    var idle := if n > 0 then n else 0;
    p.(maxIdle := if p.maxOpen > 0 && idle > p.maxOpen then p.maxOpen else idle)
  }

  /** (*sql.DB).SetConnMaxLifetime: a duration that is not positive means connections are kept forever. */
  function SetConnMaxLifetime(p: Pool, d: int): (r: Pool)
    ensures d > 0 ==> r.maxLifetime == d
    ensures d <= 0 ==> r.maxLifetime == 0
    ensures r == p.(maxLifetime := r.maxLifetime)
    ensures WellLimited(p) ==> WellLimited(r)
  {
    p.(maxLifetime := if d > 0 then d else 0)
  }

  /** (*sql.DB).SetConnMaxIdleTime: a duration that is not positive means idle connections are kept forever. */
  function SetConnMaxIdleTime(p: Pool, d: int): (r: Pool)
    ensures d > 0 ==> r.maxIdleTime == d
    ensures d <= 0 ==> r.maxIdleTime == 0
    ensures r == p.(maxIdleTime := r.maxIdleTime)
    ensures WellLimited(p) ==> WellLimited(r)
  {
    p.(maxIdleTime := if d > 0 then d else 0)
  }

  /** The write pool Open configures: one connection, kept idle and forever. */
  function WritePool(dsn: string): (p: Pool)
    ensures p.dsn == dsn && !p.closed
    ensures p.maxOpen == 1 && p.maxIdle == 1 && p.maxLifetime == 0 && p.maxIdleTime == 0
    ensures WellLimited(p)
  {
    SetConnMaxIdleTime(SetConnMaxLifetime(SetMaxIdleConns(SetMaxOpenConns(OpenedPool(dsn), 1), 1), 0), 0)
  }

  /** The read pool Open configures: up to ten connections, five of them idle. */
  function ReadPool(dsn: string): (p: Pool)
    ensures p.dsn == dsn && !p.closed
    ensures p.maxOpen == 10 && p.maxIdle == 5 && p.maxLifetime == 0 && p.maxIdleTime == 0
    ensures WellLimited(p)
  {
    SetMaxIdleConns(SetMaxOpenConns(OpenedPool(dsn), 10), 5)
  }

  /** Position of the first c in s, |s| when there is none. */
  function IndexOf(s: string, c: char): (i: nat)
    ensures i <= |s| && c !in s[..i]
    ensures i < |s| ==> s[i] == c
  {
    if s == [] then 0
    else if s[0] == c then 0
    else
      var i := 1 + IndexOf(s[1..], c);
      assert s[..i] == [s[0]] + s[1..][..i - 1];
      i
  }

  /** key=value, or key with an empty value when there is no '='. */
  function KeyValue(s: string): (string, string) {
    var i := IndexOf(s, '=');
    if i == |s| then (s, "") else (s[..i], s[i + 1..])
  }

  /** The '&'-separated key=value pairs of a query, the first of repeated keys winning. */
  function ParseQuery(q: string): map<string, string>
    decreases |q|
  {
    var i := IndexOf(q, '&');
    var kv := KeyValue(q[..i]);
    var rest := if i == |q| then map[] else ParseQuery(q[i + 1..]);
    rest[kv.0 := kv.1]
  }

  /**
   * How the sqlite3 driver reads a DSN's settings: the query after the first
   * '?', none when '?' is missing or first. Percent-decoding is not modelled.
   */
  function QueryParameters(dsn: string): (r: map<string, string>)
    ensures '?' !in dsn ==> r == map[]
    ensures dsn != [] && dsn[0] == '?' ==> r == map[]
  {
    var q := IndexOf(dsn, '?');
    if q == |dsn| || q == 0 then map[] else ParseQuery(dsn[q + 1..])
  }

  lemma {:induction false} IndexOfAfter(a: string, c: char, b: string)
    requires c !in a
    ensures IndexOf(a + [c] + b, c) == |a|
    decreases |a|
  {
    if a != [] {
      assert (a + [c] + b)[1..] == a[1..] + [c] + b;
      IndexOfAfter(a[1..], c, b);
    }
  }

  lemma {:induction false} IndexOfMissing(a: string, c: char)
    requires c !in a
    ensures IndexOf(a, c) == |a|
    decreases |a|
  {
    if a != [] {
      IndexOfMissing(a[1..], c);
    }
  }

  lemma KeyValueOf(k: string, v: string)
    requires '=' !in k
    ensures KeyValue(k + "=" + v) == (k, v)
  {
    IndexOfAfter(k, '=', v);
    assert (k + "=" + v)[..|k|] == k;
    assert (k + "=" + v)[|k| + 1..] == v;
  }

  /** One more pair in front of a query. */
  lemma ParseQueryCons(k: string, v: string, rest: string)
    requires '=' !in k && '&' !in k && '&' !in v
    ensures ParseQuery(k + "=" + v + "&" + rest) == ParseQuery(rest)[k := v]
  {
    var q := k + "=" + v + "&" + rest;
    assert '&' !in k + "=" + v;
    IndexOfAfter(k + "=" + v, '&', rest);
    assert q[..|k + "=" + v|] == k + "=" + v;
    assert q[|k + "=" + v| + 1..] == rest;
    KeyValueOf(k, v);
  }

  /** A query of a single pair. */
  lemma ParseQueryOne(k: string, v: string)
    requires '=' !in k && '&' !in k && '&' !in v
    ensures ParseQuery(k + "=" + v) == map[k := v]
  {
    var q := k + "=" + v;
    assert '&' !in q;
    IndexOfMissing(q, '&');
    assert q[..|q|] == q;
    KeyValueOf(k, v);
    assert ParseQuery(q) == map[][k := v];
  }

  /** For a DSN without '?', the settings are those of the query Open appends. */
  lemma QueryAfterDsn(dsn: string, query: string)
    requires dsn != [] && '?' !in dsn
    ensures QueryParameters(dsn + "?" + query) == ParseQuery(query)
  {
    IndexOfAfter(dsn, '?', query);
    assert (dsn + "?" + query)[|dsn| + 1..] == query;
  }

  /** Joining settings and parsing the text back gives the settings. */
  lemma {:induction false} ParseQueryText(settings: seq<Setting>)
    requires settings != []
    requires forall i :: 0 <= i < |settings| ==> PlainSetting(settings[i])
    ensures ParseQuery(QueryText(settings)) == SettingsMap(settings)
    decreases |settings|
  {
    var k, v := settings[0].0, settings[0].1;
    if |settings| == 1 {
      ParseQueryOne(k, v);
      assert SettingsMap(settings[1..]) == map[];
    } else {
      ParseQueryCons(k, v, QueryText(settings[1..]));
      ParseQueryText(settings[1..]);
    }
  }

  /** One more setting at the end of a query. */
  lemma {:induction false} QueryTextAppend(settings: seq<Setting>, s: Setting)
    requires settings != []
    ensures QueryText(settings + [s]) == QueryText(settings) + "&" + s.0 + "=" + s.1
    decreases |settings|
  {
    if |settings| > 1 {
      assert (settings + [s])[1..] == settings[1..] + [s];
      QueryTextAppend(settings[1..], s);
    }
  }
}

/** The settings the DSNs Open builds hand to the sqlite3 driver. */
module DsnSettings {
  import opened Pools

  /** The query Open writes out is the WAL settings joined. */
  lemma WalQueryText()
    ensures QueryText(WalSettings) == WalQuery
  {
    WalQueryLiteral();
  }

  lemma WalQueryLiteral()
    ensures QueryText(WalSettings) == "_journal_mode=wal&_foreign_keys=on&_busy_timeout=5000"
  {
    WalQueryHead();
    WalQueryTail();
    WalQueryJoin();
  }

  lemma WalQueryHead()
    ensures QueryText(WalSettings) == "_journal_mode=wal&" + QueryText(WalSettings[1..])
  {
    assert WalSettings[0].0 + "=" + WalSettings[0].1 + "&" == "_journal_mode=wal&";
  }

  lemma WalQueryJoin()
    ensures "_journal_mode=wal&" + "_foreign_keys=on&_busy_timeout=5000"
            == "_journal_mode=wal&_foreign_keys=on&_busy_timeout=5000"
  {
  }

  lemma WalQueryTail()
    ensures QueryText(WalSettings[1..]) == "_foreign_keys=on&_busy_timeout=5000"
  {
    var w := WalSettings[1..];
    assert w[1..] == [("_busy_timeout", "5000")];
    assert w[0].0 + "=" + w[0].1 + "&" == "_foreign_keys=on&";
  }

  lemma ReadOnlyParameterText()
    ensures ReadOnlyParameter == "&mode=ro"
  {
  }

  lemma MemoryDsnText()
    ensures MemoryDsn == "file::memory:?cache=shared&_foreign_keys=on"
  {
    MemoryQueryLiteral();
  }

  lemma MemoryQueryLiteral()
    ensures QueryText(MemorySettings) == "cache=shared&_foreign_keys=on"
  {
    var m := MemorySettings;
    assert m[1..] == [("_foreign_keys", "on")];
    assert m[0].0 + "=" + m[0].1 + "&" == "cache=shared&";
  }

  lemma WalSettingsMap()
    ensures SettingsMap(WalSettings)
            == map["_journal_mode" := "wal", "_foreign_keys" := "on", "_busy_timeout" := "5000"]
  {
    var w := WalSettings;
    assert SettingsMap(w[1..][1..][1..]) == map[];
    assert SettingsMap(w[1..][1..]) == map["_busy_timeout" := "5000"];
    assert SettingsMap(w[1..]) == map["_busy_timeout" := "5000", "_foreign_keys" := "on"];
  }

  lemma WalReadOnlySettingsMap()
    ensures SettingsMap(WalSettings + [ReadOnlySetting])
            == map["_journal_mode" := "wal", "_foreign_keys" := "on", "_busy_timeout" := "5000", "mode" := "ro"]
  {
    var w := WalSettings + [ReadOnlySetting];
    assert w == [("_journal_mode", "wal"), ("_foreign_keys", "on"), ("_busy_timeout", "5000"), ("mode", "ro")];
    assert SettingsMap(w[1..][1..][1..][1..]) == map[];
    assert SettingsMap(w[1..][1..][1..]) == map["mode" := "ro"];
    assert SettingsMap(w[1..][1..]) == map["mode" := "ro", "_busy_timeout" := "5000"];
    assert SettingsMap(w[1..]) == map["mode" := "ro", "_busy_timeout" := "5000", "_foreign_keys" := "on"];
  }

  lemma WalSettingsPlain()
    ensures forall i :: 0 <= i < |WalSettings + [ReadOnlySetting]| ==> PlainSetting((WalSettings + [ReadOnlySetting])[i])
  {
  }

  lemma WalQueryParsed()
    ensures ParseQuery(QueryText(WalSettings)) == SettingsMap(WalSettings)
  {
    WalSettingsPlain();
    assert forall i :: 0 <= i < |WalSettings| ==> WalSettings[i] == (WalSettings + [ReadOnlySetting])[i];
    ParseQueryText(WalSettings);
  }

  lemma WalReadOnlyQueryParsed()
    ensures ParseQuery(QueryText(WalSettings) + ReadOnlyParameter) == SettingsMap(WalSettings + [ReadOnlySetting])
  {
    WalSettingsPlain();
    QueryTextAppend(WalSettings, ReadOnlySetting);
    assert ReadOnlyParameter == "&" + ReadOnlySetting.0 + "=" + ReadOnlySetting.1;
    assert QueryText(WalSettings) + ReadOnlyParameter
        == QueryText(WalSettings) + "&" + ReadOnlySetting.0 + "=" + ReadOnlySetting.1;
    ParseQueryText(WalSettings + [ReadOnlySetting]);
  }

  /** The settings of the DSNs Open builds for a file database. */
  lemma FileDsnQuery(dsn: string)
    requires dsn != [] && '?' !in dsn
    ensures QueryParameters(WriteDsn(dsn)) == SettingsMap(WalSettings)
    ensures QueryParameters(ReadDsn(dsn)) == SettingsMap(WalSettings + [ReadOnlySetting])
  {
    WriteDsnQuery(dsn);
    ReadDsnQuery(dsn);
  }

  lemma WriteDsnQuery(dsn: string)
    requires dsn != [] && '?' !in dsn
    ensures QueryParameters(WriteDsn(dsn)) == SettingsMap(WalSettings)
  {
    var wal := QueryText(WalSettings);
    WalQueryText();
    assert WriteDsn(dsn) == dsn + "?" + wal;
    QueryAfterDsn(dsn, wal);
    WalQueryParsed();
  }

  lemma ReadDsnQuery(dsn: string)
    requires dsn != [] && '?' !in dsn
    ensures QueryParameters(ReadDsn(dsn)) == SettingsMap(WalSettings + [ReadOnlySetting])
  {
    var wal := QueryText(WalSettings);
    WalQueryText();
    assert ReadDsn(dsn) == dsn + "?" + (wal + ReadOnlyParameter);
    QueryAfterDsn(dsn, wal + ReadOnlyParameter);
    WalReadOnlyQueryParsed();
  }

  /**
   * The writer's DSN turns on write-ahead logging, foreign keys and a
   * 5000 ms busy timeout; the reader's also carries `mode=ro`. Which of
   * these the driver then applies (it may drop the query of a DSN that is
   * not a `file:` URI) is not modelled. A DSN that itself holds a '?' would
   * move these settings into its own query and is excluded.
   */
  lemma FileDsnSettings(dsn: string)
    requires dsn != [] && '?' !in dsn
    ensures QueryParameters(WriteDsn(dsn))
            == map["_journal_mode" := "wal", "_foreign_keys" := "on", "_busy_timeout" := "5000"]
    ensures QueryParameters(ReadDsn(dsn))
            == map["_journal_mode" := "wal", "_foreign_keys" := "on", "_busy_timeout" := "5000", "mode" := "ro"]
  {
    FileDsnQuery(dsn);
    WalSettingsMap();
    WalReadOnlySettingsMap();
  }

  lemma MemoryQueryText()
    ensures ParseQuery(QueryText(MemorySettings)) == SettingsMap(MemorySettings)
  {
    assert forall i :: 0 <= i < |MemorySettings| ==> PlainSetting(MemorySettings[i]);
    ParseQueryText(MemorySettings);
  }

  lemma MemoryDsnQuery()
    ensures QueryParameters(MemoryDsn) == ParseQuery(QueryText(MemorySettings))
  {
    QueryAfterDsn("file::memory:", QueryText(MemorySettings));
  }

  /**
   * The in-memory DSN shares one cache and turns on foreign keys; it sets no
   * journal mode, busy timeout or `mode=ro`, so nothing asks for the read
   * pool of an in-memory database to be read-only.
   */
  lemma MemoryDsnSettings()
    ensures QueryParameters(MemoryDsn) == map["cache" := "shared", "_foreign_keys" := "on"]
  {
    MemoryDsnQuery();
    MemoryQueryText();
    MemorySettingsMap();
  }

  lemma MemorySettingsMap()
    ensures SettingsMap(MemorySettings) == map["cache" := "shared", "_foreign_keys" := "on"]
  {
    assert SettingsMap(MemorySettings[1..]) == map["_foreign_keys" := "on"];
  }
}
