/**
 * The configuration resolver: the zod schema of sdk/src/env.ts, its
 * `safeParse` over the process environment, and the module's load-time
 * choice between exporting `ENV` and exiting.
 */
module Environment {
  import opened Results

  /** The process environment: every variable that is set holds a string. */
  type ProcessEnv = map<string, string>

  /** The parsed configuration `ENV`: one entry per schema key. */
  type Env = map<string, string>

  const SuiNetwork := "SUI_NETWORK"
  const DropsPackageId := "DROPS_PACKAGE_ID"
  const DropsPackageName := "DROPS_PACKAGE_NAME"
  const CollectionModuleName := "COLLECTION_MODULE_NAME"
  const DropModuleName := "DROP_MODULE_NAME"

  /** The schema's keys, in declaration order; each one is `z.string()`. */
  const EnvSchema: seq<string> :=
    [SuiNetwork, DropsPackageId, DropsPackageName, CollectionModuleName, DropModuleName]

  /** One schema issue, with the fields the formatted report shows. */
  datatype Issue = Issue(path: string, expected: string, received: string, message: string)

  /** The issue zod raises for a `z.string()` key that is absent. */
  function RequiredIssue(key: string): Issue {
    Issue(key, "string", "undefined", "Required")
  }

  /** No key occurs twice; a zod object shape cannot declare a key twice. */
  predicate Distinct(keys: seq<string>) {
    forall i, j :: 0 <= i < j < |keys| ==> keys[i] != keys[j]
  }

  /** The schema keys absent from `env`, in schema order. */
  function MissingKeys(schema: seq<string>, env: ProcessEnv): (missing: seq<string>)
    ensures forall k :: k in missing <==> k in schema && k !in env
    ensures |missing| <= |schema|
    ensures Distinct(schema) ==> Distinct(missing)
  {
    if schema == [] then []
    else if schema[0] in env then MissingKeys(schema[1..], env)
    else
      assert Distinct(schema) ==> schema[0] !in schema[1..];
      [schema[0]] + MissingKeys(schema[1..], env)
  }

  /**
   * envSchema.safeParse(env): success with exactly the schema's keys (zod
   * drops every other key), or failure with one issue per missing key.
   */
  function SafeParse(schema: seq<string>, env: ProcessEnv): (r: Result<Env, seq<Issue>>)
    ensures r.Success? <==> forall k :: k in schema ==> k in env
    ensures r.Success? ==> r.value.Keys == set k | k in schema
    ensures r.Success? ==> forall k :: k in r.value ==> k in env && r.value[k] == env[k]
    ensures r.Failure? ==> |r.error| > 0
    ensures r.Failure? ==> forall k :: (exists i :: 0 <= i < |r.error| && r.error[i].path == k) <==> k in schema && k !in env
    ensures r.Failure? ==> forall i :: 0 <= i < |r.error| ==> r.error[i] == RequiredIssue(r.error[i].path)
    ensures r.Failure? ==> |r.error| == |MissingKeys(schema, env)|
    ensures r.Failure? ==> forall i :: 0 <= i < |r.error| ==> r.error[i].path == MissingKeys(schema, env)[i]
    ensures r.Failure? && Distinct(schema) ==> forall i, j :: 0 <= i < j < |r.error| ==> r.error[i].path != r.error[j].path
  {
    var missing := MissingKeys(schema, env);
    if missing == [] then
      Success(map k | k in schema :: env[k])
    else
      assert missing[0] in missing;
      var issues := seq(|missing|, i requires 0 <= i < |missing| => RequiredIssue(missing[i]));
      assert forall k :: (exists i :: 0 <= i < |issues| && issues[i].path == k) <==> k in missing by {
        forall k ensures (exists i :: 0 <= i < |issues| && issues[i].path == k) <==> k in missing {
          if k in missing {
            var i :| 0 <= i < |missing| && missing[i] == k;
            assert issues[i].path == k;
          }
        }
      }
      Failure(issues)
  }

  /** The messages of the issues that concern key `k`, in issue order. */
  function MessagesFor(issues: seq<Issue>, k: string): seq<string> {
    if issues == [] then []
    else
      var n := |issues| - 1;
      MessagesFor(issues[..n], k) + (if issues[n].path == k then [issues[n].message] else [])
  }

  /** The positions of the issues that concern key `k`. */
  ghost function IssuesAt(issues: seq<Issue>, k: string): set<int> {
    set i | 0 <= i < |issues| && issues[i].path == k
  }

  /** A message is listed for `k` exactly when some issue for `k` carries it. */
  lemma {:induction false} MessagesForMembership(issues: seq<Issue>, k: string, m: string)
    ensures m in MessagesFor(issues, k) <==>
      exists i :: 0 <= i < |issues| && issues[i].path == k && issues[i].message == m
  {
    if issues != [] {
      var n := |issues| - 1;
      MessagesForMembership(issues[..n], k, m);
      assert forall i :: 0 <= i < n ==> issues[..n][i] == issues[i];
    }
  }

  /** One message is listed for `k` per issue for `k`. */
  lemma {:induction false} MessagesForCount(issues: seq<Issue>, k: string)
    ensures |MessagesFor(issues, k)| == |IssuesAt(issues, k)|
  {
    if issues != [] {
      var n := |issues| - 1;
      MessagesForCount(issues[..n], k);
      assert forall i :: 0 <= i < n ==> issues[..n][i] == issues[i];
      if issues[n].path == k {
        assert IssuesAt(issues, k) == IssuesAt(issues[..n], k) + {n};
      } else {
        assert IssuesAt(issues, k) == IssuesAt(issues[..n], k);
      }
    }
  }

  lemma MessagesForAllMembership(issues: seq<Issue>)
    ensures forall k, m :: m in MessagesFor(issues, k) <==>
      exists i :: 0 <= i < |issues| && issues[i].path == k && issues[i].message == m
  {
    forall k, m ensures m in MessagesFor(issues, k) <==>
      exists i :: 0 <= i < |issues| && issues[i].path == k && issues[i].message == m
    {
      MessagesForMembership(issues, k, m);
    }
  }

  /**
   * `error.format()`: the messages of the issues, grouped by the key they
   * concern, in issue order.
   */
  function FormatIssues(issues: seq<Issue>): (report: map<string, seq<string>>)
    ensures forall k :: k in report <==> exists i :: 0 <= i < |issues| && issues[i].path == k
    ensures forall k :: k in report ==> |report[k]| > 0
    ensures forall k, m :: k in report && m in report[k] ==>
      exists i :: 0 <= i < |issues| && issues[i].path == k && issues[i].message == m
    ensures forall i :: 0 <= i < |issues| ==>
      issues[i].path in report && issues[i].message in report[issues[i].path]
  {
    MessagesForAllMembership(issues);
    var report := map k | k in (set i | 0 <= i < |issues| :: issues[i].path) :: MessagesFor(issues, k);
    assert forall k :: k in report ==> report[k] == MessagesFor(issues, k);
    assert forall i :: 0 <= i < |issues| ==> issues[i].message in MessagesFor(issues, issues[i].path);
    assert forall k :: k in report ==> |report[k]| > 0 by {
      forall k | k in report ensures |report[k]| > 0 {
        var i :| 0 <= i < |issues| && issues[i].path == k;
        assert issues[i].message in report[k];
      }
    }
    report
  }

  /** Each key's entry in the report lists one message per issue for that key. */
  lemma FormatIssuesCount(issues: seq<Issue>, k: string)
    requires k in FormatIssues(issues)
    ensures |FormatIssues(issues)[k]| == |IssuesAt(issues, k)|
  {
    MessagesForCount(issues, k);
  }

  /** When no two issues name the same key and each says "Required", every report entry is exactly `["Required"]`. */
  lemma SingleRequiredMessages(issues: seq<Issue>)
    requires forall i, j :: 0 <= i < j < |issues| ==> issues[i].path != issues[j].path
    requires forall i :: 0 <= i < |issues| ==> issues[i].message == "Required"
    ensures forall k :: k in FormatIssues(issues) ==> FormatIssues(issues)[k] == ["Required"]
  {
    var report := FormatIssues(issues);
    forall k | k in report ensures report[k] == ["Required"] {
      FormatIssuesCount(issues, k);
      var i :| 0 <= i < |issues| && issues[i].path == k;
      assert IssuesAt(issues, k) == {i};
      assert report[k][0] in report[k];
    }
  }

  /** What loading sdk/src/env.ts leads to: an exported `ENV`, or exit with a code and the printed report. */
  datatype Startup = Started(env: Env) | Exited(code: int, report: map<string, seq<string>>)

  /**
   * Module load: parse the environment; on failure print the formatted
   * report and exit with code 1, so no `ENV` is ever exported.
   */
  function LoadEnv(schema: seq<string>, processEnv: ProcessEnv): (s: Startup)
    ensures s.Exited? <==> exists k :: k in schema && k !in processEnv
    ensures s.Exited? ==> s.code == 1
    ensures s.Exited? ==> s.report.Keys == set k | k in schema && k !in processEnv
    ensures s.Exited? ==> forall k, m :: k in s.report && m in s.report[k] ==> m == "Required"
    ensures s.Exited? && Distinct(schema) ==> forall k :: k in s.report ==> s.report[k] == ["Required"]
    ensures s.Started? ==> s.env == map k | k in schema :: processEnv[k]
  {
    match SafeParse(schema, processEnv)
    case Success(env) =>
      assert env == map k | k in schema :: processEnv[k];
      Started(env)
    case Failure(issues) =>
      FailureReport(schema, processEnv);
      Exited(1, FormatIssues(issues))
  }

  /** A report built from "Required" issues lists no other message. */
  lemma RequiredOnlyReport(issues: seq<Issue>)
    requires forall i :: 0 <= i < |issues| ==> issues[i].message == "Required"
    ensures forall k, m :: k in FormatIssues(issues) && m in FormatIssues(issues)[k] ==> m == "Required"
  {
  }

  /** The report printed on a failed parse: the missing keys, each with "Required" only, once per key when the schema repeats none. */
  lemma FailureReport(schema: seq<string>, processEnv: ProcessEnv)
    requires SafeParse(schema, processEnv).Failure?
    ensures FormatIssues(SafeParse(schema, processEnv).error).Keys == set k | k in schema && k !in processEnv
    ensures forall k, m ::
      (k in FormatIssues(SafeParse(schema, processEnv).error) &&
       m in FormatIssues(SafeParse(schema, processEnv).error)[k]) ==> m == "Required"
    ensures Distinct(schema) ==> forall k :: k in FormatIssues(SafeParse(schema, processEnv).error) ==>
      FormatIssues(SafeParse(schema, processEnv).error)[k] == ["Required"]
  {
    var issues := SafeParse(schema, processEnv).error;
    var report := FormatIssues(issues);
    assert report.Keys == set k | k in schema && k !in processEnv;
    assert forall i :: 0 <= i < |issues| ==> issues[i] == RequiredIssue(issues[i].path);
    assert forall i :: 0 <= i < |issues| ==> issues[i].message == "Required";
    RequiredOnlyReport(issues);
    if Distinct(schema) {
      assert forall i, j :: 0 <= i < j < |issues| ==> issues[i].path != issues[j].path;
      SingleRequiredMessages(issues);
    }
  }

  /** The `ENV` keys are exactly the schema's five, each required. */
  lemma EnvSchemaRequiredKeys(processEnv: ProcessEnv)
    ensures SafeParse(EnvSchema, processEnv).Success? <==>
      && SuiNetwork in processEnv
      && DropsPackageId in processEnv
      && DropsPackageName in processEnv
      && CollectionModuleName in processEnv
      && DropModuleName in processEnv
    ensures SafeParse(EnvSchema, processEnv).Success? ==>
      SafeParse(EnvSchema, processEnv).value.Keys ==
        {SuiNetwork, DropsPackageId, DropsPackageName, CollectionModuleName, DropModuleName}
  {
  }

  /** The five schema keys are pairwise different, so each missing one gets exactly one issue. */
  lemma EnvSchemaDistinct()
    ensures Distinct(EnvSchema)
  {
  }

  /** An environment without DROPS_PACKAGE_ID fails to load, and the report names that key. */
  lemma MissingPackageIdReported(processEnv: ProcessEnv)
    requires DropsPackageId !in processEnv
    ensures LoadEnv(EnvSchema, processEnv).Exited?
    ensures DropsPackageId in LoadEnv(EnvSchema, processEnv).report
  {
  }

  /**
   * Only the schema keys matter: two environments that agree on them give
   * the same result, so variables outside the schema neither cause a
   * failure nor reach `ENV`.
   */
  lemma {:induction false} SafeParseIgnoresOtherKeys(schema: seq<string>, e1: ProcessEnv, e2: ProcessEnv)
    requires forall k :: k in schema ==> (k in e1 <==> k in e2)
    requires forall k :: k in schema && k in e1 ==> e1[k] == e2[k]
    ensures SafeParse(schema, e1) == SafeParse(schema, e2)
  {
    MissingKeysAgree(schema, e1, e2);
    if MissingKeys(schema, e1) == [] {
      assert SafeParse(schema, e1).value == SafeParse(schema, e2).value;
    }
  }

  lemma {:induction false} MissingKeysAgree(schema: seq<string>, e1: ProcessEnv, e2: ProcessEnv)
    requires forall k :: k in schema ==> (k in e1 <==> k in e2)
    ensures MissingKeys(schema, e1) == MissingKeys(schema, e2)
  {
    if schema != [] {
      MissingKeysAgree(schema[1..], e1, e2);
    }
  }
}
