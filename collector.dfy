/**
 * The collector's main package: the three metric sources built from the
 * configuration, and the per-source task that reads an exporter's response
 * body line by line and hands every data line to the Kafka producer as one
 * message on the source's topic, partition 0, keyed by the metric name.
 */
module Collector {
  import opened Wrappers
  import opened GoStrings
  import opened Bufio
  import opened Seqs
  import Config

  /** `MetricSource`: a display name, the URL to scrape and the topic to publish on. */
  datatype MetricSource = MetricSource(name: string, url: string, topic: string)

  /** The source table `runJobs` builds from `Cfg` on every round. */
  function MetricSources(cfg: Config.AppConfig): (sources: seq<MetricSource>)
    ensures |sources| == 3
    ensures sources[0].url == cfg.nodeExporterURL && sources[0].topic == "node-exporter-metrics"
    ensures sources[1].url == cfg.springActuatorURL && sources[1].topic == "spring-actuator-metrics"
    ensures sources[2].url == cfg.mySQLExporterURL && sources[2].topic == "mysql-exporter-metrics"
    ensures forall i, j :: 0 <= i < j < |sources| ==> sources[i].topic != sources[j].topic
  {
    [ MetricSource("Node Exporter", cfg.nodeExporterURL, "node-exporter-metrics"),
      MetricSource("Spring BE Actuator", cfg.springActuatorURL, "spring-actuator-metrics"),
      MetricSource("MySQL Exporter", cfg.mySQLExporterURL, "mysql-exporter-metrics") ]
  }

  /**
   * Once `Load` has succeeded on an environment, the three sources scrape
   * exactly the URLs that environment gives for the three exporter keys.
   */
  lemma SourcesScrapeConfiguredURLs(env: map<string, string>)
    requires Config.LoadConfig(env).Ok?
    ensures var sources := MetricSources(Config.LoadConfig(env).value);
            Config.NodeExporterKey in env && sources[0].url == env[Config.NodeExporterKey]
            && Config.SpringActuatorKey in env && sources[1].url == env[Config.SpringActuatorKey]
            && Config.MySQLExporterKey in env && sources[2].url == env[Config.MySQLExporterKey]
  {
  }

  /** The HTTP status `fetchAndProduceMetrics` accepts (`http.StatusOK`). */
  const StatusOK := 200

  /** One `Produce` call: topic, partition, key and value of the Kafka message. */
  datatype Message = Message(topic: string, partition: int, key: string, value: string)

  datatype KeyValue = KeyValue(key: string, value: string)

  /** A trimmed line that is forwarded: neither blank nor a `#` comment. */
  predicate Retained(line: string) {
    line != [] && line[0] != '#'
  }

  /**
   * `key` is the metric name of `line`: the text before the first ' ' (a
   * space only; a tab does not separate), or the whole line when it has no
   * space. KeyOfUnique shows there is exactly one such key.
   */
  ghost predicate IsKeyOf(key: string, line: string) {
    |key| <= |line| && key == line[..|key|] && ' ' !in key && (|key| < |line| ==> line[|key|] == ' ')
  }

  lemma KeyOfUnique(k1: string, k2: string, line: string)
    requires IsKeyOf(k1, line) && IsKeyOf(k2, line)
    ensures k1 == k2
  {
  }

  /**
   * The loop body's decision for one line read from the body: trim it, skip
   * it when it is blank or a comment, and otherwise split off the metric name
   * as the key and keep the whole trimmed line as the value.
   */
  function ParseLine(segment: string): (r: Option<KeyValue>)
    ensures r.Some? <==> Retained(TrimSpace(segment))
    ensures r.Some? ==> r.value.value == TrimSpace(segment)
    ensures r.Some? ==> IsKeyOf(r.value.key, r.value.value)
  {
    var line := TrimSpace(segment);
    if (|line| >= 1 && line[0] == '#') || line == "" then None
    else
      var parts := SplitN2(line, ' ');
      if |parts| < 1 then None
      else Some(KeyValue(parts[0], line))
  }

  /**
   * The converse of ParseLine's contract: a line whose trimmed text is kept
   * yields that text as the value and its metric name as the key.
   */
  lemma ParseLineOf(segment: string, key: string, line: string)
    requires TrimSpace(segment) == line && Retained(line) && IsKeyOf(key, line)
    ensures ParseLine(segment) == Some(KeyValue(key, line))
  {
    KeyOfUnique(ParseLine(segment).value.key, key, line);
  }

  /**
   * The '\n' that `ReadString` leaves at the end of a line does not change the
   * decision or reach the message: the line is parsed as its bare text.
   */
  lemma ParseLineIgnoresTerminator(text: string)
    ensures ParseLine(text + "\n") == ParseLine(text)
  {
    TrimSpaceDropsNewline(text);
  }

  /**
   * What a message produced for `topic` always looks like: it goes to
   * partition 0 of `topic`, its value is a line that is neither blank nor a
   * comment, and its key is that line's metric name.
   */
  ghost predicate WellFormed(m: Message, topic: string) {
    m.topic == topic && m.partition == 0 && Retained(m.value) && IsKeyOf(m.key, m.value)
  }

  /** The messages produced for one line. */
  function Emit(topic: string, segment: string): seq<Message> {
    match ParseLine(segment)
    case None => []
    case Some(kv) => [Message(topic, 0, kv.key, kv.value)]
  }

  /** The messages produced for a sequence of lines, in line order. */
  function Forward(topic: string, lines: seq<string>): seq<Message> {
    if lines == [] then [] else Emit(topic, lines[0]) + Forward(topic, lines[1..])
  }

  /**
   * At most one message per line, and every message goes to `topic` at
   * partition 0 with a non-blank, non-comment value keyed by its metric name.
   */
  lemma {:induction false} ForwardWellFormed(topic: string, lines: seq<string>)
    ensures |Forward(topic, lines)| <= |lines|
    ensures forall i :: 0 <= i < |Forward(topic, lines)| ==>
              Forward(topic, lines)[i].topic == topic && Forward(topic, lines)[i].partition == 0
    ensures forall i :: 0 <= i < |Forward(topic, lines)| ==> WellFormed(Forward(topic, lines)[i], topic)
  {
    if lines != [] {
      ForwardWellFormed(topic, lines[1..]);
      EmitWellFormed(topic, lines[0]);
      WellFormedAppend(topic, Emit(topic, lines[0]), Forward(topic, lines[1..]));
    }
  }

  lemma EmitWellFormed(topic: string, segment: string)
    ensures |Emit(topic, segment)| <= 1
    ensures forall i :: 0 <= i < |Emit(topic, segment)| ==> WellFormed(Emit(topic, segment)[i], topic)
  {
    var r := ParseLine(segment);
    if r.Some? {
      var m := Message(topic, 0, r.value.key, r.value.value);
      assert Emit(topic, segment) == [m];
      assert WellFormed(m, topic);
    }
  }

  lemma WellFormedAppend(topic: string, e: seq<Message>, f: seq<Message>)
    requires forall i :: 0 <= i < |e| ==> WellFormed(e[i], topic)
    requires forall i :: 0 <= i < |f| ==> WellFormed(f[i], topic)
    ensures forall i :: 0 <= i < |e + f| ==> WellFormed((e + f)[i], topic)
  {
    forall i | 0 <= i < |e + f| ensures WellFormed((e + f)[i], topic) {
      if i < |e| { assert (e + f)[i] == e[i]; } else { assert (e + f)[i] == f[i - |e|]; }
    }
  }

  /** The trimmed lines that are kept, in order. */
  function RetainedLines(lines: seq<string>): seq<string> {
    if lines == [] then []
    else
      var line := TrimSpace(lines[0]);
      (if Retained(line) then [line] else []) + RetainedLines(lines[1..])
  }

  /**
   * Exactly one message per kept line and in the same order: the i-th
   * message carries the i-th kept line as its value and that line's metric
   * name as its key.
   */
  lemma {:induction false} ForwardMatchesRetainedLines(topic: string, lines: seq<string>)
    ensures |Forward(topic, lines)| == |RetainedLines(lines)|
    ensures forall i :: 0 <= i < |Forward(topic, lines)| ==>
              Forward(topic, lines)[i].value == RetainedLines(lines)[i]
              && IsKeyOf(Forward(topic, lines)[i].key, RetainedLines(lines)[i])
  {
    if lines != [] {
      ForwardMatchesRetainedLines(topic, lines[1..]);
    }
  }

  lemma ForwardCons(topic: string, line: string, lines: seq<string>)
    ensures Forward(topic, [line] + lines) == Emit(topic, line) + Forward(topic, lines)
  {
    DropPrefix([line], lines);
  }

  lemma {:induction false} ForwardAppend(topic: string, a: seq<string>, b: seq<string>)
    ensures Forward(topic, a + b) == Forward(topic, a) + Forward(topic, b)
  {
    if a == [] {
      assert a + b == b;
    } else {
      DropAppend(a, b, 1);
      ForwardAppend(topic, a[1..], b);
      AppendAssociative(Emit(topic, a[0]), Forward(topic, a[1..]), Forward(topic, b));
    }
  }

  /**
   * A response body as the reader sees it: its bytes, and, when reading the
   * body fails part-way with an error other than io.EOF, the offset at which
   * the failure happens.
   */
  datatype Body = Body(data: string, readErrorAt: Option<nat>)

  /**
   * What the reader delivers before its first error. `bufio.Reader` returns
   * everything it buffered before it reports the error, so a failure at
   * offset k behaves like the end of a body cut at k.
   */
  function Delivered(body: Body): (s: string)
    ensures |s| <= |body.data| && s == body.data[..|s|]
    ensures body.readErrorAt.None? ==> s == body.data
  {
    match body.readErrorAt
    case None => body.data
    case Some(k) => if k < |body.data| then body.data[..k] else body.data
  }

  /** The outcome of `http.Get`: a transport error, or a response. */
  datatype HttpOutcome = RequestFailed | Response(statusCode: int, body: Body)

  /**
   * The messages one run of `fetchAndProduceMetrics` produces: none when the
   * producer cannot be created, the GET fails or the status is not 200, and
   * otherwise those of the complete lines the reader delivers.
   */
  function Scrape(topic: string, producerCreated: bool, http: HttpOutcome): (msgs: seq<Message>)
    ensures forall i :: 0 <= i < |msgs| ==> msgs[i].topic == topic && msgs[i].partition == 0
    ensures forall i :: 0 <= i < |msgs| ==> WellFormed(msgs[i], topic)
  {
    if !producerCreated || http.RequestFailed? || http.statusCode != StatusOK then []
    else
      ForwardWellFormed(topic, CompleteLines(Delivered(http.body)));
      Forward(topic, CompleteLines(Delivered(http.body)))
  }

  /**
   * `fetchAndProduceMetrics`. After the early exits it calls `ReadString('\n')`
   * until the first error, and for each line that survives ParseLine issues one
   * `Produce` (recorded in `produced`) and counts it in `sentCount`.
   */
  method FetchAndProduceMetrics(source: MetricSource, producerCreated: bool, http: HttpOutcome)
    returns (sentCount: nat, ghost produced: seq<Message>)
    ensures produced == Scrape(source.topic, producerCreated, http)
    ensures sentCount == |Scrape(source.topic, producerCreated, http)| && sentCount == |produced|
    ensures !producerCreated || http.RequestFailed? || http.statusCode != StatusOK ==> sentCount == 0
    ensures forall i :: 0 <= i < |produced| ==> produced[i].topic == source.topic && produced[i].partition == 0
  {
    sentCount, produced := 0, [];
    if !producerCreated {
      return;
    }
    if http.RequestFailed? {
      return;
    }
    if http.statusCode != StatusOK {
      return;
    }
    var rest := Delivered(http.body);
    ghost var all := Forward(source.topic, CompleteLines(rest));
    while true
      invariant produced + Forward(source.topic, CompleteLines(rest)) == all
      invariant sentCount == |produced|
      decreases |rest|
    {
      var read := ReadString(rest);
      if read.Eof? {
        break;
      }
      ghost var before, done := rest, produced;
      ghost var emitted := Emit(source.topic, read.line);
      rest := rest[|read.line|..];
      ForwardStep(source.topic, before);
      var line := TrimSpace(read.line);
      if !((|line| >= 1 && line[0] == '#') || line == "") {
        var parts := SplitN2(line, ' ');
        if |parts| >= 1 {
          var key, value := parts[0], line;
          produced := produced + [Message(source.topic, 0, key, value)];
          sentCount := sentCount + 1;
          assert produced == done + emitted;
        }
      } else {
        assert produced == done + emitted by { assert emitted == []; }
      }
      AppendAssociative(done, emitted, Forward(source.topic, CompleteLines(rest)));
    }
  }

  /** One `ReadString` step of the loop: the next line's messages come first. */
  lemma ForwardStep(topic: string, s: string)
    requires ReadString(s).Segment?
    ensures Forward(topic, CompleteLines(s))
            == Emit(topic, ReadString(s).line) + Forward(topic, CompleteLines(s[|ReadString(s).line|..]))
  {
    var l := ReadString(s).line;
    assert CompleteLines(s) == [l] + CompleteLines(s[|l|..]);
    ForwardCons(topic, l, CompleteLines(s[|l|..]));
  }

  /** A final segment without '\n' is never forwarded, whatever it holds. */
  lemma ScrapeIgnoresUnterminatedTail(topic: string, data: string, tail: string)
    requires '\n' !in tail
    ensures Scrape(topic, true, Response(StatusOK, Body(data + tail, None)))
            == Scrape(topic, true, Response(StatusOK, Body(data, None)))
  {
    CompleteLinesIgnoreTail(data, tail);
  }

  /**
   * Messages keep body order: a body made of a part ending at a line
   * boundary and a rest produces the part's messages, then the rest's.
   */
  lemma ScrapeAppend(topic: string, a: string, b: string)
    requires a == [] || a[|a| - 1] == '\n'
    ensures Scrape(topic, true, Response(StatusOK, Body(a + b, None)))
            == Scrape(topic, true, Response(StatusOK, Body(a, None)))
               + Scrape(topic, true, Response(StatusOK, Body(b, None)))
  {
    CompleteLinesAppend(a, b);
    ForwardAppend(topic, CompleteLines(a), CompleteLines(b));
  }

  /**
   * A read error part-way through the body loses only messages at the end:
   * what is produced is a prefix of what the intact body produces.
   */
  lemma ScrapeReadErrorKeepsPrefix(topic: string, data: string, k: nat)
    ensures var cut := Scrape(topic, true, Response(StatusOK, Body(data, Some(k))));
            var whole := Scrape(topic, true, Response(StatusOK, Body(data, None)));
            |cut| <= |whole| && cut == whole[..|cut|]
  {
    var d := Delivered(Body(data, Some(k)));
    CompleteLinesOfPrefix(d, data[|d|..]);
    assert d + data[|d|..] == data;
    ForwardAppend(topic, CompleteLines(d), CompleteLines(Unterminated(d) + data[|d|..]));
  }
}
