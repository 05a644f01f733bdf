/**
 * The start-up validation of the process environment (src/env.checks.ts).
 *
 * The environment is a map from variable name to value; a name that is not a
 * key is `undefined`, and a key bound to "" is defined (and so present).
 * JavaScript's `isNaN(Number(s))` coercion is not modelled: the caller passes
 * `numeric`, the predicate "Number(s) is not NaN".
 */
module EnvChecks {

  type Env = map<string, string>

  /** The ten variables that must be defined, in the order they are checked. */
  const RequiredEnvVariables: seq<string> := [
    "DATABASE_URL",
    "JWT_SECRET",
    "CORS_ACCEPTED_DOMAINS",
    "MQTT_BROKER_URL",
    "MQTT_BROKER_TLS_PORT",
    "MQTT_SENDCMD_TOPIC",
    "MQTT_RECEIVE_TOPIC",
    "MQTT_USERNAME",
    "MQTT_CLIENT_ID",
    "MQTT_PASSWORD"
  ]

  const MinSecretLength: nat := 15

  const AllowedNodeEnvs: seq<string> := ["development", "production"]

  /** Why the environment was refused, or `Accepted`: the first failing check wins. */
  datatype Verdict =
    | Accepted
    | MissingVariables(names: seq<string>)
    | PortNotANumber
    | SecretTooShort
    | TlsPortNotANumber
    | InvalidNodeEnv

  /** `names.filter(key => env[key] === undefined)`: the undefined names, in their order. */
  function Missing(env: Env, names: seq<string>): (r: seq<string>)
    ensures forall x :: x in r <==> x in names && x !in env
    ensures |r| <= |names|
    ensures IsSubsequence(r, names)
  {
    if names == [] then []
    else if names[0] !in env then [names[0]] + Missing(env, names[1..])
    else Missing(env, names[1..])
  }

  /** `xs` is `ys` with some elements dropped, the rest kept in order. */
  predicate IsSubsequence<T(==)>(xs: seq<T>, ys: seq<T>)
  {
    if xs == [] then true
    else if ys == [] then false
    else if xs[0] == ys[0] then IsSubsequence(xs[1..], ys[1..])
    else IsSubsequence(xs, ys[1..])
  }

  // The individual checks, stated on their own.

  predicate RequiredPresent(env: Env)
  {
    forall i :: 0 <= i < |RequiredEnvVariables| ==> RequiredEnvVariables[i] in env
  }

  /** `PORT` is optional: undefined or empty skips the check. */
  predicate PortOk(env: Env, numeric: string -> bool)
  {
    "PORT" in env && env["PORT"] != "" ==> numeric(env["PORT"])
  }

  predicate SecretLongEnough(env: Env)
  {
    "JWT_SECRET" in env && |env["JWT_SECRET"]| >= MinSecretLength
  }

  predicate TlsPortOk(env: Env, numeric: string -> bool)
  {
    "MQTT_BROKER_TLS_PORT" in env && numeric(env["MQTT_BROKER_TLS_PORT"])
  }

  predicate NodeEnvOk(env: Env)
  {
    "NODE_ENV" in env ==> env["NODE_ENV"] in AllowedNodeEnvs
  }

  predicate AllChecksPass(env: Env, numeric: string -> bool)
  {
    RequiredPresent(env) && PortOk(env, numeric) && SecretLongEnough(env)
    && TlsPortOk(env, numeric) && NodeEnvOk(env)
  }

  /** The chain of early returns, reporting which check failed first. */
  function Diagnose(env: Env, numeric: string -> bool): (v: Verdict)
    ensures v == Accepted <==> AllChecksPass(env, numeric)
    ensures v.MissingVariables? <==> !RequiredPresent(env)
    ensures v.MissingVariables? ==> v.names != [] && forall x :: x in v.names <==> x in RequiredEnvVariables && x !in env
    ensures v == PortNotANumber <==> RequiredPresent(env) && !PortOk(env, numeric)
    ensures v == SecretTooShort <==> RequiredPresent(env) && PortOk(env, numeric) && !SecretLongEnough(env)
    ensures v == TlsPortNotANumber <==>
      RequiredPresent(env) && PortOk(env, numeric) && SecretLongEnough(env) && !TlsPortOk(env, numeric)
    ensures v == InvalidNodeEnv <==>
      RequiredPresent(env) && PortOk(env, numeric) && SecretLongEnough(env) && TlsPortOk(env, numeric)
      && !NodeEnvOk(env)
  {
    var missing := Missing(env, RequiredEnvVariables);
    if |missing| > 0 then
      assert !RequiredPresent(env) by {
        var x := missing[0];
        assert x in RequiredEnvVariables && x !in env;
      }
      MissingVariables(missing)
    else
      assert RequiredPresent(env) by {
        forall i | 0 <= i < |RequiredEnvVariables| ensures RequiredEnvVariables[i] in env {
          assert RequiredEnvVariables[i] !in missing;
        }
      }
      assert "JWT_SECRET" == RequiredEnvVariables[1];
      assert "MQTT_BROKER_TLS_PORT" == RequiredEnvVariables[4];
      if "PORT" in env && env["PORT"] != "" && !numeric(env["PORT"]) then PortNotANumber
      else if |env["JWT_SECRET"]| < MinSecretLength then SecretTooShort
      else if !numeric(env["MQTT_BROKER_TLS_PORT"]) then TlsPortNotANumber
      else if "NODE_ENV" in env && env["NODE_ENV"] !in AllowedNodeEnvs then InvalidNodeEnv
      else Accepted
  }

  /** `checkEnvironmentVariables()`: true exactly when every check passes. */
  function CheckEnvironmentVariables(env: Env, numeric: string -> bool): (ok: bool)
    ensures ok <==> AllChecksPass(env, numeric)
    ensures !RequiredPresent(env) ==> !ok
  {
    Diagnose(env, numeric) == Accepted
  }

  /** Leaving out any one required name makes the check fail, whatever its other values. */
  lemma MissingRequiredFails(env: Env, numeric: string -> bool, i: nat)
    requires i < |RequiredEnvVariables|
    requires RequiredEnvVariables[i] !in env
    ensures Diagnose(env, numeric).MissingVariables?
    ensures RequiredEnvVariables[i] in Diagnose(env, numeric).names
    ensures !CheckEnvironmentVariables(env, numeric)
  {
  }

  /** A required variable bound to the empty string counts as present. */
  lemma EmptyValueIsPresent(env: Env, name: string)
    requires name in RequiredEnvVariables
    requires name in env && env[name] == ""
    ensures name !in Missing(env, RequiredEnvVariables)
  {
  }

  /** An empty `PORT` is skipped just like an undefined one. */
  lemma EmptyPortSkipsCheck(env: Env, numeric: string -> bool)
    requires "PORT" in env && env["PORT"] == ""
    ensures PortOk(env, numeric) == PortOk(env - {"PORT"}, numeric)
    ensures Diagnose(env, numeric) != PortNotANumber
  {
  }

  /** The secret length boundary: 15 characters pass, 14 do not. */
  lemma SecretBoundary(env: Env)
    requires "JWT_SECRET" in env
    ensures |env["JWT_SECRET"]| == 15 ==> SecretLongEnough(env)
    ensures |env["JWT_SECRET"]| == 14 ==> !SecretLongEnough(env)
  {
  }

  /** An undefined `NODE_ENV` is accepted; a defined one must be "development" or "production". */
  lemma NodeEnvRule(env: Env)
    ensures "NODE_ENV" !in env ==> NodeEnvOk(env)
    ensures "NODE_ENV" in env ==> (NodeEnvOk(env) <==> env["NODE_ENV"] == "development" || env["NODE_ENV"] == "production")
  {
  }
}
