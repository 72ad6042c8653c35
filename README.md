# Metric collector: line forwarder and configuration loader

This project models the two pieces of logic in a small Go service. The
service polls three Prometheus exporters and republishes every line of their
plaintext exposition output as one Kafka message.

- **Configuration loader** (`config/config.go`, module `Config`, file
  `config.dfy`). An optional `.env` file is applied to the process
  environment first. Then four required variables are looked up in a fixed
  order: `KAFKA_BROKER`, `EXPORTER_URL_NODE`, `EXPORTER_URL_SPRING`,
  `EXPORTER_URL_MYSQL`. The first missing one ends the process with a fatal
  log message. If all four are present, the package-level record `Cfg` is
  filled. `getEnv` becomes the function `GetEnv` over a
  `map<string, string>`. The `Load` composite literal becomes the pure
  `LoadConfig`, which returns a `Result`. The global `Cfg` becomes the field
  `cfg` of the class `ConfigPackage`, which its method `Load` assigns.
- **Source table and per-source forwarder** (`main.go`, module `Collector`,
  file `collector.dfy`). `MetricSources` is the three-entry table built in
  `runJobs`. `FetchAndProduceMetrics` is the loop of `fetchAndProduceMetrics`.
  It reads the body one `'\n'`-terminated segment at a time and stops at the
  first read error. Each segment is trimmed. Blank lines and `#` comments are
  skipped. Every other line becomes one `Produce` call, recorded in the ghost
  sequence `produced`, and is counted in `sentCount`. The message goes to the
  source's topic at partition 0, keyed by the text before the first space,
  with the whole trimmed line as its value. The method is proved equal to the
  pure function `Scrape`. The lemmas about `Scrape`, `Forward` and
  `CompleteLines` state the source's promises: filtering, key and value,
  order, one message per kept line, and the dropped unterminated last
  segment.
- **Library behaviour the loop relies on**. Go's `strings.TrimSpace` and
  `strings.SplitN(s, " ", 2)` are in module `GoStrings` (`gostrings.dfy`).
  `bufio.Reader.ReadString('\n')` is in module `Bufio` (`bufio.dfy`). The
  reader returns a final segment without `'\n'` together with `io.EOF`, and
  the loop breaks before using it. So what the loop processes is exactly the
  body's complete lines: `CompleteLines`. Two lemmas pin this down.
  `CompleteLinesPartition` shows that a body is its complete lines followed by
  an unterminated rest. `CompleteLinesOfConcat` shows that this split is
  unique.

Inputs from outside the program are parameters:
- the environment and the optional `.env` file's contents;
- whether the Kafka producer could be created;
- the result of `http.Get`: a transport error, or a status code and a body;
- the body's characters, plus the offset of a mid-stream read error if one
  happens.

Behaviour of the code that the model keeps:

- The loop never forwards a last segment that has no `'\n'`
  (`ScrapeIgnoresUnterminatedTail`).
- In `bufio`, a read error other than EOF first hands back everything
  buffered before it. So an error at offset k behaves like a body cut at k
  (`Delivered`, `ScrapeReadErrorKeepsPrefix`).
- The key splits at `' '` only. A tab does not end the key, although
  trimming removes tabs at the ends of the line.
- The `len(parts) < 1` test at main.go:150 can never be true, because
  `SplitN` always returns at least one part (`SplitN2`'s contract). The model
  keeps the test as a guard with no else branch.

## Model

| member | source | states |
|---|---|---|
| `Config.GetEnv` | config/config.go:47-56 | Presence alone decides the result. A present key yields exactly its value, even when the value is empty. An absent key yields the fatal outcome naming that key, with no value |
| `Config.FirstMissing` | config/config.go:36-41 | Gives the position of the first key of a list that the environment lacks. It is `None` exactly when every key is present, and every earlier key is present |
| `Config.EffectiveEnv` | config/config.go:26-33 | With no readable `.env` file, the environment is unchanged. Otherwise the file adds the variables that are missing and overrides none |
| `Config.LoadConfig` | config/config.go:36-41 | Succeeds exactly when all four keys are present. It then holds their values in the fields `KafkaBroker`, `NodeExporterURL`, `SpringActuatorURL`, `MySQLExporterURL`. Otherwise it fails naming the first missing key in lookup order |
| `Config.LoadFailsOnlyOnMissingKey` | config/config.go:28-41 | A key that `Load` reports missing is required and absent from both the process environment and the file. With all four in the process environment, `Load` succeeds whatever the file holds |
| `Config.ConfigPackage.constructor` | config/config.go:21 | `Cfg` starts as the zero `AppConfig` |
| `Config.ConfigPackage.Load` | config/config.go:25-43 | On success it assigns `Cfg` the loaded configuration and reports no failure. On a missing key it reports that key and leaves `Cfg` unassigned |
| `Collector.MetricSources` | main.go:54-58 | Exactly three sources. Their URLs are `Cfg`'s node, spring and mysql URLs, with topics `node-exporter-metrics`, `spring-actuator-metrics` and `mysql-exporter-metrics`. The topics are pairwise distinct |
| `Collector.SourcesScrapeConfiguredURLs` | main.go:54-58 | After a successful load, the three sources poll exactly the environment's `EXPORTER_URL_NODE`, `EXPORTER_URL_SPRING` and `EXPORTER_URL_MYSQL` |
| `Collector.ParseLine` | main.go:141-154 | A line yields a key and value exactly when its trimmed text is non-empty and does not start with `#`. The value is the whole trimmed text. The key is the text before its first space, or all of it, and holds no space |
| `Collector.KeyOfUnique` | main.go:149-153 | At most one key fits a line: "before the first space" determines the key |
| `Collector.ParseLineOf` | main.go:141-154 | Converse of `ParseLine`: a kept trimmed line with a given metric name yields exactly that key and that line |
| `Collector.ParseLineIgnoresTerminator` | main.go:131-142 | The `'\n'` that `ReadString` keeps on a line never changes the outcome, since trimming removes it |
| `Collector.ForwardWellFormed` | main.go:142-164 | There is at most one message per line. Every message targets the topic at partition 0. Its value is a non-blank, non-comment line, and its key is that line's metric name |
| `Collector.ForwardMatchesRetainedLines` | main.go:129-167 | The i-th message carries the i-th kept trimmed line as its value and that line's metric name as its key. The counts are equal and the order is kept |
| `Collector.ForwardAppend` | main.go:129-167 | Lines are handled one at a time and independently, so forwarding a concatenation concatenates the results |
| `Collector.Delivered` | main.go:131-139 | What the reader delivers before its first error is a prefix of the body. With no read error it is the whole body |
| `Collector.Scrape` | main.go:79-167 | Every produced message goes to the source's topic at partition 0 and is well formed |
| `Collector.FetchAndProduceMetrics` | main.go:110-167 | The `Produce` calls issued are exactly `Scrape`'s messages, in order. `sentCount` equals their number. A failed producer, a failed GET or a non-200 status gives zero messages |
| `Collector.ScrapeIgnoresUnterminatedTail` | main.go:131-139 | Text after the last `'\n'` never yields a message, whatever it contains |
| `Collector.ScrapeAppend` | main.go:129-167 | Messages follow body order. A body split at a line boundary yields the first part's messages, then the rest's |
| `Collector.ScrapeReadErrorKeepsPrefix` | main.go:131-139 | A mid-stream read error only loses messages at the end. The messages produced are a prefix of those for the intact body |
| `Bufio.ReadString` | main.go:131-139 | Returns the next line, up to and including the first `'\n'` and with no earlier one. When no `'\n'` is left, it returns all the rest with the EOF outcome |
| `Bufio.CompleteLinesAreLines` | main.go:129-139 | Every line handed to the loop ends with `'\n'` and holds no other `'\n'` |
| `Bufio.CompleteLinesPartition` | main.go:129-139 | A body is its complete lines followed by the unterminated rest that comes back with EOF |
| `Bufio.CompleteLinesOfConcat` | main.go:129-139 | Any split of a body into complete lines and a rest without `'\n'` is the one the reader finds |
| `Bufio.CompleteLinesIgnoreTail` | main.go:131-139 | Appending text without `'\n'` adds no line for the loop to process |
| `Bufio.CompleteLinesAppend` | main.go:129-139 | Reading a body split at a line boundary gives the first part's lines, then the rest's |
| `Bufio.CompleteLinesAfterLines` | main.go:129-139 | Complete lines at the front of a body come back one by one, whatever follows them |
| `Bufio.CompleteLinesOfPrefix` | main.go:129-139 | The complete lines of a prefix of the body come first among the body's complete lines |
| `GoStrings.TrimSpaceTrims` | main.go:142 | The trimmed line neither starts nor ends with white space, and is empty exactly when the line is white space only |
| `GoStrings.TrimSpaceUnique` | main.go:142 | The trimmed line is the one slice with only white space around it |
| `GoStrings.TrimSpaceDropsNewline` | main.go:131-142 | Trimming a line with or without its `'\n'` gives the same text |
| `GoStrings.SplitN2` | main.go:149-153 | Always one or two parts. The first part holds no space. Joining the parts with a space gives back the line, or the single part is the line and the line has no space |

## Left out

- Kafka producer: `kafka.NewProducer` and its settings (`acks`, `retries`), the delivery-event listener goroutine, `Flush` with its 15-second bound and the remaining count, and `Close`. These are library calls. Producer creation is a boolean parameter, and each `Produce` call is an append to the ghost sequence `produced`.
- HTTP: `http.Get` and `resp.Body.Close` are library calls. Their outcome is the `HttpOutcome` parameter.
- Scheduling: `main`'s ticker loop, the goroutine per source and the `sync.WaitGroup` join in `runJobs`. These are concurrency and timing. Only the source table of `runJobs` is modelled.
- The parsing of the `.env` file by `godotenv`, a third-party library. Its readable contents are an optional map, and the library's rule of not overriding variables already set is assumed.
- All log output, including the warning at main.go:172 whose format arguments are in the wrong order.
- Bytes and text encoding: the body is a sequence of decoded characters, so invalid UTF-8 is not modelled. `TrimSpace` uses Go's `unicode.IsSpace` set on those characters. The conversion of key and value to `[]byte` is not modelled.
- `Collector.FetchAndProduceMetrics`: `sentCount` is an unbounded `nat`, while Go's `int` is 64 bits wide. No body is long enough to reach that bound.
