/**
 * The collection-creation builder of sdk/src/helpers/createCollection.ts:
 * a typed parameter record becomes one Move call `<package>::collection::create`
 * with a fixed, width-tagged argument list, added to a fresh transaction that
 * is handed to the client for signing and execution.
 */
module CollectionTx {
  import opened Results
  import Environment

  /** One argument of a Move call, tagged with the encoder that produced it. */
  datatype Arg =
    | ObjectRef(objectId: string)   // tx.object(id)
    | Str(text: string)             // tx.pure.string(s)
    | U16(n: int)                   // tx.pure.u16(n)
    | U32(n: int)                   // tx.pure.u32(n)
    | U64(n: int)                   // tx.pure.u64(n)

  /** A Move call command: target string, ordered arguments and type arguments. */
  datatype MoveCall = MoveCall(target: string, arguments: seq<Arg>, typeArguments: seq<string>)

  /** The parameter record of createCollection; the coordinates may be omitted. */
  datatype CollectionParams = CollectionParams(
    name: string,
    description: string,
    attributes: map<string, seq<string>>,
    flags: int,
    maxSupply: int,
    mintStartTime: int,
    mintStopTime: int,
    coordsLat: Option<int>,
    coordsLon: Option<int>)

  /** The values createCollection sends, in the order of `collection::create`'s parameters. */
  datatype CreateArgs = CreateArgs(
    registryId: string,
    name: string,
    description: string,
    coordsLat: int,
    coordsLon: int,
    flags: int,
    maxSupply: int,
    mintStartTime: int,
    mintStopTime: int)

  /** A Move call target split into its three `::`-separated names. */
  datatype MoveTarget = MoveTarget(packageId: string, moduleName: string, functionName: string)

  /** The `options` record passed to signAndExecuteTransaction. */
  datatype ExecuteOptions = ExecuteOptions(showEffects: bool, showObjectChanges: bool)

  /** What createCollection hands to signAndExecuteTransaction: the transaction, the signer's secret key and the options. */
  datatype SignAndExecuteRequest = SignAndExecuteRequest(
    transaction: Transaction, secretKey: string, options: ExecuteOptions)

  const CollectionsRegistryId := "COLLECTIONS_REGISTRY_ID"
  const UserPrivateKey := "USER_PRIVATE_KEY"

  const U16Limit := 0x1_0000
  const U32Limit := 0x1_0000_0000
  const U64Limit := 0x1_0000_0000_0000_0000

  /** A transaction under construction: the list of commands added so far. */
  class Transaction {
    var commands: seq<MoveCall>

    /** `new Transaction()`: no commands yet. */
    constructor ()
      ensures commands == []
    {
      commands := [];
    }

    /** `tx.moveCall(call)`: appends one command and changes nothing else. */
    method AddMoveCall(call: MoveCall)
      modifies this
      ensures commands == old(commands) + [call]
    {
      commands := commands + [call];
    }
  }

  /**
   * JavaScript's `x || 0` on an optional number: an omitted value gives 0, a
   * supplied one is kept (0 is falsy, so it also gives 0, which is the same
   * value).
   */
  function OrZero(x: Option<int>): (r: int)
    ensures x.None? ==> r == 0
    ensures x.Some? ==> r == x.value
  {
    match x
    case None => 0
    case Some(v) => if v == 0 then 0 else v
  }

  /**
   * The target string `<package>::<module>::<function>`; when no name holds a
   * colon, it reads back as the same three names.
   */
  function TargetString(t: MoveTarget): (s: string)
    ensures NoColon(t.packageId) && NoColon(t.moduleName) && NoColon(t.functionName) ==>
      ParseTarget(s) == Some(t)
  {
    JoinedNamesParse(t.packageId, t.moduleName, t.functionName);
    t.packageId + "::" + t.moduleName + "::" + t.functionName
  }

  predicate NoColon(s: string) {
    forall i :: 0 <= i < |s| ==> s[i] != ':'
  }

  predicate IsSeparatorAt(s: string, i: int) {
    0 <= i && i + 1 < |s| && s[i] == ':' && s[i + 1] == ':'
  }

  /** The first position at or after `from` where `::` starts, if any. */
  function FindSeparator(s: string, from: nat): (r: Option<nat>)
    ensures r.Some? ==> from <= r.value && IsSeparatorAt(s, r.value)
    ensures r.Some? ==> forall j :: from <= j < r.value ==> !IsSeparatorAt(s, j)
    ensures r.None? ==> forall j :: from <= j ==> !IsSeparatorAt(s, j)
    decreases |s| - from
  {
    if from + 1 >= |s| then None
    else if s[from] == ':' && s[from + 1] == ':' then Some(from)
    else FindSeparator(s, from + 1)
  }

  /** Splits `s` at its first `::`. */
  function SplitOnce(s: string): Option<(string, string)> {
    match FindSeparator(s, 0)
    case None => None
    case Some(i) => Some((s[..i], s[i + 2..]))
  }

  /** Reads a target string back into its three names; the last name may hold no `::`. */
  function ParseTarget(s: string): Option<MoveTarget> {
    match SplitOnce(s)
    case None => None
    case Some((p, rest)) =>
      match SplitOnce(rest)
      case None => None
      case Some((m, f)) => if SplitOnce(f).None? then Some(MoveTarget(p, m, f)) else None
  }

  /** The argument list of `collection::create`, in its declared order; it decodes back to `a`. */
  function EncodeCreateArgs(a: CreateArgs): (args: seq<Arg>)
    ensures DecodeCreateArgs(args) == Some(a)
  {
    [ObjectRef(a.registryId), Str(a.name), Str(a.description),
     U32(a.coordsLat), U32(a.coordsLon), U16(a.flags),
     U64(a.maxSupply), U64(a.mintStartTime), U64(a.mintStopTime)]
  }

  /** Reads an argument list back, accepting only the nine-entry layout of `collection::create`. */
  function DecodeCreateArgs(args: seq<Arg>): Option<CreateArgs> {
    if |args| == 9
       && args[0].ObjectRef? && args[1].Str? && args[2].Str?
       && args[3].U32? && args[4].U32? && args[5].U16?
       && args[6].U64? && args[7].U64? && args[8].U64?
    then Some(CreateArgs(args[0].objectId, args[1].text, args[2].text,
                         args[3].n, args[4].n, args[5].n,
                         args[6].n, args[7].n, args[8].n))
    else None
  }

  /** The argument list createCollection builds from its parameters and the registry id. */
  function CreateCollectionArgs(params: CollectionParams, registryId: string): (args: seq<Arg>)
    ensures DecodeCreateArgs(args) == Some(CreateArgs(
      registryId, params.name, params.description,
      OrZero(params.coordsLat), OrZero(params.coordsLon), params.flags,
      params.maxSupply, params.mintStartTime, params.mintStopTime))
  {
    EncodeCreateArgs(CreateArgs(
      registryId, params.name, params.description,
      OrZero(params.coordsLat), OrZero(params.coordsLon), params.flags,
      params.maxSupply, params.mintStartTime, params.mintStopTime))
  }

  /** The one Move call createCollection adds. */
  function CollectionCreateCall(params: CollectionParams, packageId: string, registryId: string): (call: MoveCall)
    ensures call.typeArguments == []
    ensures DecodeCreateArgs(call.arguments).Some?
    ensures DecodeCreateArgs(call.arguments).value.registryId == registryId
  {
    MoveCall(TargetString(MoveTarget(packageId, "collection", "create")),
             CreateCollectionArgs(params, registryId), [])
  }

  /** A numeric argument lies within its tag's width; strings and object references always do. */
  predicate FitsWidth(a: Arg) {
    match a
    case U16(n) => 0 <= n < U16Limit
    case U32(n) => 0 <= n < U32Limit
    case U64(n) => 0 <= n < U64Limit
    case _ => true
  }

  /** The widths the Sui encoders demand of the parameters. */
  predicate ParamsFitWidths(params: CollectionParams) {
    && 0 <= OrZero(params.coordsLat) < U32Limit
    && 0 <= OrZero(params.coordsLon) < U32Limit
    && 0 <= params.flags < U16Limit
    && 0 <= params.maxSupply < U64Limit
    && 0 <= params.mintStartTime < U64Limit
    && 0 <= params.mintStopTime < U64Limit
  }

  /**
   * createCollection: a fresh transaction holding exactly the one
   * `collection::create` call, and the request that signs it with the user
   * key and asks for effects and object changes.
   */
  method CreateCollection(params: CollectionParams, env: Environment.Env) returns (request: SignAndExecuteRequest)
    requires Environment.DropsPackageId in env && CollectionsRegistryId in env && UserPrivateKey in env
    ensures fresh(request.transaction)
    ensures request.transaction.commands ==
      [CollectionCreateCall(params, env[Environment.DropsPackageId], env[CollectionsRegistryId])]
    ensures request.secretKey == env[UserPrivateKey]
    ensures request.options.showEffects && request.options.showObjectChanges
  {
    var tx := new Transaction();
    tx.AddMoveCall(CollectionCreateCall(params, env[Environment.DropsPackageId], env[CollectionsRegistryId]));
    request := SignAndExecuteRequest(tx, env[UserPrivateKey], ExecuteOptions(true, true));
  }

  lemma FindSeparatorAfterPrefix(p: string, rest: string)
    requires NoColon(p)
    ensures FindSeparator(p + "::" + rest, 0) == Some(|p|)
  {
    var s := p + "::" + rest;
    assert IsSeparatorAt(s, |p|);
    assert forall j :: 0 <= j < |p| ==> s[j] == p[j];
  }

  lemma SplitOnceAfterPrefix(p: string, rest: string)
    requires NoColon(p)
    ensures SplitOnce(p + "::" + rest) == Some((p, rest))
  {
    FindSeparatorAfterPrefix(p, rest);
    var s := p + "::" + rest;
    assert s[..|p|] == p;
    assert s[|p| + 2..] == rest;
  }

  lemma SplitOnceNoColon(f: string)
    requires NoColon(f)
    ensures SplitOnce(f).None?
  {
  }

  lemma JoinedNamesParse(p: string, m: string, f: string)
    ensures NoColon(p) && NoColon(m) && NoColon(f) ==>
      ParseTarget(p + "::" + m + "::" + f) == Some(MoveTarget(p, m, f))
  {
    if NoColon(p) && NoColon(m) && NoColon(f) {
      assert p + "::" + m + "::" + f == p + "::" + (m + "::" + f);
      SplitOnceAfterPrefix(p, m + "::" + f);
      SplitOnceAfterPrefix(m, f);
      SplitOnceNoColon(f);
    }
  }

  /** A split string is its two halves joined by `::`. */
  lemma SplitOnceJoins(s: string)
    requires SplitOnce(s).Some?
    ensures s == SplitOnce(s).value.0 + "::" + SplitOnce(s).value.1
  {
    var i := FindSeparator(s, 0).value;
    assert s == s[..i] + s[i..i + 2] + s[i + 2..];
  }

  /** A string that parses as a target is exactly that target rendered. */
  lemma ParsedTargetRenders(s: string)
    requires ParseTarget(s).Some?
    ensures TargetString(ParseTarget(s).value) == s
  {
    SplitOnceJoins(s);
    SplitOnceJoins(SplitOnce(s).value.1);
  }

  /** The call targets the configured package's `collection` module and its `create` function. */
  lemma CreateCallTarget(params: CollectionParams, packageId: string, registryId: string)
    requires NoColon(packageId)
    ensures ParseTarget(CollectionCreateCall(params, packageId, registryId).target) ==
      Some(MoveTarget(packageId, "collection", "create"))
  {
    var t := MoveTarget(packageId, "collection", "create");
    assert NoColon(t.moduleName) && NoColon(t.functionName);
    assert CollectionCreateCall(params, packageId, registryId).target == TargetString(t);
  }

  /** Only lists of the nine-entry layout decode, and each is the encoding of what it decodes to. */
  lemma EncodeDecodeCreateArgs(args: seq<Arg>)
    requires DecodeCreateArgs(args).Some?
    ensures EncodeCreateArgs(DecodeCreateArgs(args).value) == args
  {
  }

  /** `attributes` is never sent: parameters that differ only there give the same call. */
  lemma AttributesIgnored(p1: CollectionParams, p2: CollectionParams, packageId: string, registryId: string)
    requires p1.(attributes := p2.attributes) == p2
    ensures CollectionCreateCall(p1, packageId, registryId) == CollectionCreateCall(p2, packageId, registryId)
  {
  }

  /** The built arguments all fit their wire widths exactly when the parameters do. */
  lemma {:induction false} CreateArgsWidthsIff(params: CollectionParams, registryId: string)
    ensures (forall i :: 0 <= i < |CreateCollectionArgs(params, registryId)| ==>
               FitsWidth(CreateCollectionArgs(params, registryId)[i]))
            <==> ParamsFitWidths(params)
  {
    var args := CreateCollectionArgs(params, registryId);
    if forall i :: 0 <= i < |args| ==> FitsWidth(args[i]) {
      assert FitsWidth(args[3]) && FitsWidth(args[4]) && FitsWidth(args[5]);
      assert FitsWidth(args[6]) && FitsWidth(args[7]) && FitsWidth(args[8]);
    }
  }

  /**
   * As written, the schema keeps only its own keys, so a successfully parsed
   * `ENV` never holds the two keys createCollection reads: its precondition
   * cannot be met from the parsed configuration.
   */
  lemma SchemaDropsCreateCollectionKeys(processEnv: Environment.ProcessEnv)
    requires Environment.SafeParse(Environment.EnvSchema, processEnv).Success?
    ensures CollectionsRegistryId !in Environment.SafeParse(Environment.EnvSchema, processEnv).value
    ensures UserPrivateKey !in Environment.SafeParse(Environment.EnvSchema, processEnv).value
  {
    var env := Environment.SafeParse(Environment.EnvSchema, processEnv).value;
    assert CollectionsRegistryId !in Environment.EnvSchema;
    assert UserPrivateKey !in Environment.EnvSchema;
  }

  /** A concrete environment that sets all seven variables still yields an `ENV` without the registry id. */
  lemma SchemaDropsRegistryIdExample()
    ensures var processEnv := map[
      Environment.SuiNetwork := "testnet", Environment.DropsPackageId := "0x1",
      Environment.DropsPackageName := "drops", Environment.CollectionModuleName := "collection",
      Environment.DropModuleName := "drop", CollectionsRegistryId := "0x2", UserPrivateKey := "key"];
      && Environment.SafeParse(Environment.EnvSchema, processEnv).Success?
      && CollectionsRegistryId !in Environment.SafeParse(Environment.EnvSchema, processEnv).value
  {
    var processEnv := map[
      Environment.SuiNetwork := "testnet", Environment.DropsPackageId := "0x1",
      Environment.DropsPackageName := "drops", Environment.CollectionModuleName := "collection",
      Environment.DropModuleName := "drop", CollectionsRegistryId := "0x2", UserPrivateKey := "key"];
    SchemaDropsCreateCollectionKeys(processEnv);
  }

  /** The schema with the two keys createCollection reads added to it. */
  const CorrectedEnvSchema: seq<string> := Environment.EnvSchema + [CollectionsRegistryId, UserPrivateKey]

  /** The corrected schema declares no key twice. */
  lemma CorrectedEnvSchemaDistinct()
    ensures Environment.Distinct(CorrectedEnvSchema)
  {
  }

  /**
   * With the corrected schema, every successfully parsed `ENV` meets
   * CreateCollection's precondition and carries the environment's values.
   */
  lemma CorrectedSchemaServesCreateCollection(processEnv: Environment.ProcessEnv)
    requires Environment.SafeParse(CorrectedEnvSchema, processEnv).Success?
    ensures var env := Environment.SafeParse(CorrectedEnvSchema, processEnv).value;
      && Environment.DropsPackageId in env && CollectionsRegistryId in env && UserPrivateKey in env
      && env[CollectionsRegistryId] == processEnv[CollectionsRegistryId]
      && env[UserPrivateKey] == processEnv[UserPrivateKey]
  {
    assert Environment.DropsPackageId in CorrectedEnvSchema;
    assert CollectionsRegistryId in CorrectedEnvSchema;
    assert UserPrivateKey in CorrectedEnvSchema;
  }
}
