/**
 * The configuration package: four required settings read from the process
 * environment, which an optional `.env` file may have extended first, into
 * the package-level record `Cfg`. A missing setting ends the process
 * (`log.Fatalf`, exit status 1) naming that setting.
 */
module Config {
  import opened Wrappers

  /** `AppConfig`: the broker address and the URL of each of the three exporters. */
  datatype AppConfig = AppConfig(
    kafkaBroker: string,
    nodeExporterURL: string,
    springActuatorURL: string,
    mySQLExporterURL: string)

  /** Go's zero value of `AppConfig`, which `Cfg` holds before `Load`. */
  const ZeroConfig := AppConfig("", "", "", "")

  const KafkaBrokerKey := "KAFKA_BROKER"
  const NodeExporterKey := "EXPORTER_URL_NODE"
  const SpringActuatorKey := "EXPORTER_URL_SPRING"
  const MySQLExporterKey := "EXPORTER_URL_MYSQL"

  /** The required settings, in the order `Load` looks them up. */
  const RequiredKeys: seq<string> := [KafkaBrokerKey, NodeExporterKey, SpringActuatorKey, MySQLExporterKey]

  /** A value, or the fatal exit that `getEnv` takes for a missing setting. */
  datatype Result<+T> = Ok(value: T) | Fatal(missingKey: string) {
    predicate IsFailure() { Fatal? }

    function PropagateFailure<U>(): Result<U>
      requires Fatal?
    {
      Fatal(missingKey)
    }

    function Extract(): T
      requires Ok?
    {
      value
    }
  }

  /**
   * The environment `Load` sees after `godotenv.Load()`. With no readable
   * `.env` file (`None`) the environment is the process's own; otherwise the
   * file adds the variables the process does not already have and overrides none.
   */
  function EffectiveEnv(osEnv: map<string, string>, dotenvFile: Option<map<string, string>>): (env: map<string, string>)
    ensures forall k :: k in osEnv ==> k in env && env[k] == osEnv[k]
    ensures forall k :: k in env ==> k in osEnv || (dotenvFile.Some? && k in dotenvFile.value)
    ensures dotenvFile.Some? ==> forall k :: k in dotenvFile.value && k !in osEnv ==> k in env && env[k] == dotenvFile.value[k]
  {
    match dotenvFile
    case None => osEnv
    case Some(file) => file + osEnv
  }

  /**
   * `getEnv`: the value of `key` whenever the key is present, the empty string
   * included (only presence is tested), and the fatal exit naming `key` otherwise.
   */
  function GetEnv(env: map<string, string>, key: string): (r: Result<string>)
    ensures r.Ok? <==> key in env
    ensures r.Ok? ==> r.value == env[key]
    ensures r.Fatal? ==> r.missingKey == key
  {
    if key in env then Ok(env[key]) else Fatal(key)
  }

  /** The position in `keys` of the first key that `env` lacks, if any. */
  function FirstMissing(env: map<string, string>, keys: seq<string>): (r: Option<nat>)
    ensures r.None? <==> forall i :: 0 <= i < |keys| ==> keys[i] in env
    ensures r.Some? ==> r.value < |keys| && keys[r.value] !in env
    ensures r.Some? ==> forall i :: 0 <= i < r.value ==> keys[i] in env
  {
    if keys == [] then None
    else if keys[0] !in env then Some(0)
    else match FirstMissing(env, keys[1..])
      case None => None
      case Some(i) => Some(i + 1)
  }

  /** FirstMissing on RequiredKeys, spelled out key by key. */
  lemma FirstMissingOfRequired(env: map<string, string>)
    ensures FirstMissing(env, RequiredKeys) ==
              if KafkaBrokerKey !in env then Some(0)
              else if NodeExporterKey !in env then Some(1)
              else if SpringActuatorKey !in env then Some(2)
              else if MySQLExporterKey !in env then Some(3)
              else None
  {
    var k1 := [NodeExporterKey, SpringActuatorKey, MySQLExporterKey];
    var k2 := [SpringActuatorKey, MySQLExporterKey];
    var k3 := [MySQLExporterKey];
    assert RequiredKeys[1..] == k1 && k1[1..] == k2 && k2[1..] == k3 && k3[1..] == [];
    assert FirstMissing(env, k3) == if MySQLExporterKey !in env then Some(0) else None;
    assert FirstMissing(env, k2) == if SpringActuatorKey !in env then Some(0)
                                    else if MySQLExporterKey !in env then Some(1) else None;
  }

  /**
   * The composite literal of `Load`: its four `getEnv` calls run left to
   * right, and the first that fails ends the process. So the configuration is
   * built exactly when every required key is present, from those keys' values,
   * and otherwise the failure names the first missing key of RequiredKeys.
   */
  function LoadConfig(env: map<string, string>): (r: Result<AppConfig>)
    ensures r.Ok? <==> FirstMissing(env, RequiredKeys).None?
    ensures r.Ok? ==> KafkaBrokerKey in env && NodeExporterKey in env
                      && SpringActuatorKey in env && MySQLExporterKey in env
    ensures r.Ok? ==> r.value == AppConfig(env[KafkaBrokerKey], env[NodeExporterKey],
                                           env[SpringActuatorKey], env[MySQLExporterKey])
    ensures r.Fatal? ==> r.missingKey == RequiredKeys[FirstMissing(env, RequiredKeys).value]
  {
    FirstMissingOfRequired(env);
    var kafkaBroker :- GetEnv(env, KafkaBrokerKey);
    var nodeExporterURL :- GetEnv(env, NodeExporterKey);
    var springActuatorURL :- GetEnv(env, SpringActuatorKey);
    var mySQLExporterURL :- GetEnv(env, MySQLExporterKey);
    Ok(AppConfig(kafkaBroker, nodeExporterURL, springActuatorURL, mySQLExporterURL))
  }

  /**
   * Only a missing required key stops `Load`; a missing or unreadable `.env`
   * file does not. The key a failure names is absent from the process
   * environment and from the file, and with every key set in the process
   * environment `Load` succeeds whatever the file holds.
   */
  lemma LoadFailsOnlyOnMissingKey(osEnv: map<string, string>, dotenvFile: Option<map<string, string>>)
    ensures LoadConfig(EffectiveEnv(osEnv, dotenvFile)).Fatal? ==>
              var k := LoadConfig(EffectiveEnv(osEnv, dotenvFile)).missingKey;
              k in RequiredKeys && k !in osEnv && (dotenvFile.Some? ==> k !in dotenvFile.value)
    ensures (forall i :: 0 <= i < |RequiredKeys| ==> RequiredKeys[i] in osEnv) ==>
              LoadConfig(EffectiveEnv(osEnv, dotenvFile)).Ok?
  {
    var env := EffectiveEnv(osEnv, dotenvFile);
    if LoadConfig(env).Fatal? {
      var i := FirstMissing(env, RequiredKeys).value;
      assert RequiredKeys[i] !in env;
    }
  }

  /** The package holding the global `Cfg`. */
  class ConfigPackage {
    var cfg: AppConfig

    constructor ()
      ensures cfg == ZeroConfig
    {
      cfg := ZeroConfig;
    }

    /**
     * `Load`: applies the `.env` file, then looks the four keys up in order.
     * It returns `None` after assigning `Cfg`, or `Some(key)` for the fatal
     * exit on the first missing key, in which case `Cfg` is never assigned.
     */
    method Load(osEnv: map<string, string>, dotenvFile: Option<map<string, string>>) returns (fatal: Option<string>)
      modifies this
      ensures var r := LoadConfig(EffectiveEnv(osEnv, dotenvFile));
              (r.Ok? ==> fatal == None && cfg == r.value)
              && (r.Fatal? ==> fatal == Some(r.missingKey) && cfg == old(cfg))
    {
      var env := EffectiveEnv(osEnv, dotenvFile);
      var kafkaBroker := GetEnv(env, KafkaBrokerKey);
      if kafkaBroker.Fatal? { return Some(kafkaBroker.missingKey); }
      var nodeExporterURL := GetEnv(env, NodeExporterKey);
      if nodeExporterURL.Fatal? { return Some(nodeExporterURL.missingKey); }
      var springActuatorURL := GetEnv(env, SpringActuatorKey);
      if springActuatorURL.Fatal? { return Some(springActuatorURL.missingKey); }
      var mySQLExporterURL := GetEnv(env, MySQLExporterKey);
      if mySQLExporterURL.Fatal? { return Some(mySQLExporterURL.missingKey); }
      cfg := AppConfig(kafkaBroker.value, nodeExporterURL.value, springActuatorURL.value, mySQLExporterURL.value);
      return None;
    }
  }
}
