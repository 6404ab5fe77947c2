/**
 * The worker-pool expression parser of the `kubernetes` command
 * (cmd/kubernetes.go): `isIntField`, `parseTaints`, `parseLabels` and
 * `parseWorkerPool`.
 *
 * An expression such as
 *   name=p;flavor=f;...;labels=env=dev,team=core;taints=app=demo:NoSchedule
 * is split on `;`. A segment that mentions `labels` goes to the labels parser,
 * else one that mentions `taints` goes to the taints parser, else it is a
 * scalar `key=value`. Scalars are kept as text, except the four size fields
 * (read with `Atoi`) and `enable_autoscaling` (also read with `ParseBool`).
 * Every mandatory field is then checked and the record is assembled.
 *
 * Each `log.Fatal` of the source is an `Err` here. The methods follow the
 * source's loops; each is proved equal to a function (`LabelsOf`, `TaintsOf`,
 * `WorkerPoolOf`), and the lemmas state what those functions promise.
 */
module Kubernetes {
  import opened Wrappers
  import Strings
  import Regexp
  import Strconv

  /** `gobizfly.Taint`. */
  datatype Taint = Taint(key: string, value: string, effect: string)

  /** `gobizfly.WorkerPool`, restricted to the fields the parser fills; a nil label map is `None`. */
  datatype WorkerPool = WorkerPool(
    name: string,
    flavor: string,
    profileType: string,
    volumeType: string,
    volumeSize: int,
    availabilityZone: string,
    desiredSize: int,
    enableAutoScaling: bool,
    minSize: int,
    maxSize: int,
    labels: Option<map<string, string>>,
    taints: seq<Taint>)

  /** One constructor per distinct `log.Fatal` message of the parser. */
  datatype ParseError =
    | InvalidInput               // "Invalid worker pool input"
    | InvalidLabels              // "Invalid worker pool labels input"
    | InvalidTaints              // "Invalid worker pool taints input"
    | MissingField(field: string) // "Missing required worker pool field: <field>"

  datatype Result<T> = Ok(value: T) | Err(error: ParseError)

  const IntFieldNames: seq<string> := ["volume_size", "desired_size", "min_size", "max_size"]
  const StrRequiredFields: seq<string> := ["name", "flavor", "profile_type", "volume_type", "availability_zone"]
  const IntRequiredFields: seq<string> := ["volume_size", "desired_size", "min_size", "max_size"]

  /** `isIntField`: the field's value is read as an integer. */
  function IsIntField(key: string): (b: bool)
    ensures b <==> key == "volume_size" || key == "desired_size" || key == "min_size" || key == "max_size"
  {
    key in IntFieldNames
  }

  /**
   * The mandatory integer fields land in the integer map, and the mandatory
   * text fields and `enable_autoscaling` in the text map.
   */
  lemma RequiredFieldsClassified()
    ensures forall f :: f in IntRequiredFields ==> IsIntField(f)
    ensures forall f :: f in StrRequiredFields ==> !IsIntField(f)
    ensures !IsIntField("enable_autoscaling")
  {
  }

  /** Go's `m[k]`: the entry for `k`, or the zero value when `m` has none. */
  function Get<V>(m: map<string, V>, k: string, zero: V): V {
    if k in m then m[k] else zero
  }

  // ---------------------------------------------------------------------------
  // parseLabels
  // ---------------------------------------------------------------------------

  /** Every label pair has an `=`, so `(.*)=(.*)` matches each of them. */
  predicate AllKeyValues(pairs: seq<string>) {
    forall j :: 0 <= j < |pairs| ==> '=' in pairs[j]
  }

  /** The `(.*)=(.*)` captures of every label pair, or `None` if some pair has no `=`. */
  function LabelCaptures(pairs: seq<string>): (r: Option<seq<(string, string)>>)
    ensures r.Some? <==> AllKeyValues(pairs)
    ensures r.Some? ==> |r.value| == |pairs|
    ensures r.Some? ==> forall j :: 0 <= j < |pairs| ==> Regexp.MatchKeyValue(pairs[j]) == Some(r.value[j])
    decreases |pairs|
  {
    if |pairs| == 0 then Some([])
    else
      var init := pairs[..|pairs| - 1];
      assert forall j :: 0 <= j < |init| ==> init[j] == pairs[j];
      match (LabelCaptures(init), Regexp.MatchKeyValue(pairs[|pairs| - 1]))
      case (Some(kvs), Some(kv)) => Some(kvs + [kv])
      case _ => None
  }

  /** Entering the pairs into an empty map in order, so that a later pair overwrites an earlier one. */
  function ToMap(kvs: seq<(string, string)>): map<string, string>
    decreases |kvs|
  {
    if |kvs| == 0 then map[]
    else ToMap(kvs[..|kvs| - 1])[kvs[|kvs| - 1].0 := kvs[|kvs| - 1].1]
  }

  /** The keys of the map are exactly the keys of the pairs. */
  lemma {:induction false} ToMapKeys(kvs: seq<(string, string)>)
    ensures forall k :: k in ToMap(kvs) <==> exists j :: 0 <= j < |kvs| && kvs[j].0 == k
    decreases |kvs|
  {
    if |kvs| > 0 {
      var init := kvs[..|kvs| - 1];
      ToMapKeys(init);
      assert forall j :: 0 <= j < |init| ==> init[j] == kvs[j];
    }
  }

  /** A key maps to the value of the last pair that has it. */
  lemma {:induction false} ToMapLastWins(kvs: seq<(string, string)>, j: nat)
    requires j < |kvs|
    requires forall i :: j < i < |kvs| ==> kvs[i].0 != kvs[j].0
    ensures kvs[j].0 in ToMap(kvs) && ToMap(kvs)[kvs[j].0] == kvs[j].1
    decreases |kvs|
  {
    if j < |kvs| - 1 {
      var init := kvs[..|kvs| - 1];
      ToMapLastWins(init, j);
    }
  }

  /**
   * `parseLabels` as a function: the text after the leftmost `labels=`, split
   * on `,`, each pair split at its last `=`, entered in order into a map.
   */
  function LabelsOf(pair: string): (r: Result<map<string, string>>)
    ensures r.Err? ==> r.error == InvalidLabels
    ensures !Strings.Contains(pair, "labels=") ==> r.Err?
    ensures Regexp.SubmatchAfter(pair, "labels=") == Some("") ==> r.Err?
    ensures Regexp.SubmatchAfter(pair, "labels=").Some? ==>
      (r.Ok? <==> AllKeyValues(Strings.Split(Regexp.SubmatchAfter(pair, "labels=").value, ',')))
  {
    match Regexp.SubmatchAfter(pair, "labels=")
    case None => Err(InvalidLabels)
    case Some(values) =>
      var pairs := Strings.Split(values, ',');
      match LabelCaptures(pairs)
      case None =>
        Err(InvalidLabels)
      case Some(kvs) => Ok(ToMap(kvs))
  }

  /**
   * What a successful `parseLabels` returns: the keys are those of the pairs,
   * and each key holds the value of the last pair that has it.
   */
  lemma LabelsOfMap(pair: string, values: string, kvs: seq<(string, string)>)
    requires Regexp.SubmatchAfter(pair, "labels=") == Some(values)
    requires LabelCaptures(Strings.Split(values, ',')) == Some(kvs)
    ensures LabelsOf(pair).Ok?
    ensures forall k :: k in LabelsOf(pair).value <==> exists j :: 0 <= j < |kvs| && kvs[j].0 == k
    ensures forall j :: 0 <= j < |kvs| && (forall i :: j < i < |kvs| ==> kvs[i].0 != kvs[j].0) ==>
      kvs[j].0 in LabelsOf(pair).value && LabelsOf(pair).value[kvs[j].0] == kvs[j].1
  {
    ToMapKeys(kvs);
    forall j | 0 <= j < |kvs| && (forall i :: j < i < |kvs| ==> kvs[i].0 != kvs[j].0)
      ensures kvs[j].0 in ToMap(kvs) && ToMap(kvs)[kvs[j].0] == kvs[j].1
    {
      ToMapLastWins(kvs, j);
    }
  }

  /** One more pair: the captures grow by its match, or fail for good when it has no `=`. */
  lemma LabelCapturesStep(pairs: seq<string>, i: nat, kvs: seq<(string, string)>)
    requires i < |pairs| && LabelCaptures(pairs[..i]) == Some(kvs)
    ensures Regexp.MatchKeyValue(pairs[i]).Some? ==>
      LabelCaptures(pairs[..i + 1]) == Some(kvs + [Regexp.MatchKeyValue(pairs[i]).value]) &&
      ToMap(kvs + [Regexp.MatchKeyValue(pairs[i]).value]) ==
        ToMap(kvs)[Regexp.MatchKeyValue(pairs[i]).value.0 := Regexp.MatchKeyValue(pairs[i]).value.1]
    ensures Regexp.MatchKeyValue(pairs[i]).None? ==> LabelCaptures(pairs) == None
  {
    assert pairs[..i + 1][..i] == pairs[..i];
    if Regexp.MatchKeyValue(pairs[i]).Some? {
      var kvs' := kvs + [Regexp.MatchKeyValue(pairs[i]).value];
      assert kvs'[..|kvs'| - 1] == kvs;
    }
  }

  /** `parseLabels`: fills the label map pair by pair. */
  method ParseLabels(pair: string) returns (res: Result<map<string, string>>)
    requires '\n' !in pair
    ensures res == LabelsOf(pair)
  {
    var subStrs := Regexp.SubmatchAfter(pair, "labels=");
    if subStrs.None? {
      return Err(InvalidLabels);
    }
    var labelPairs := Strings.Split(subStrs.value, ',');
    var labelsMap: map<string, string> := map[];
    ghost var kvs: seq<(string, string)> := [];
    assert labelPairs[..0] == [];
    for i := 0 to |labelPairs|
      invariant LabelCaptures(labelPairs[..i]) == Some(kvs)
      invariant labelsMap == ToMap(kvs)
    {
      var kv := Regexp.MatchKeyValue(labelPairs[i]);
      LabelCapturesStep(labelPairs, i, kvs);
      if kv.None? {
        return Err(InvalidLabels);
      }
      labelsMap := labelsMap[kv.value.0 := kv.value.1];
      kvs := kvs + [kv.value];
    }
    assert labelPairs[..|labelPairs|] == labelPairs;
    return Ok(labelsMap);
  }

  // ---------------------------------------------------------------------------
  // parseTaints
  // ---------------------------------------------------------------------------

  /**
   * One taint token read with `(.*)=(.*):(.*)`; `None` when the pattern does
   * not match or the key or the effect is empty. The value may be empty.
   */
  function TaintOf(token: string): (r: Option<Taint>)
    ensures r.Some? ==> r.value.key != "" && r.value.effect != ""
  {
    match Regexp.MatchTaint(token)
    case None => None
    case Some((key, value, effect)) =>
      if effect == "" || key == "" then None else Some(Taint(key, value, effect))
  }

  /**
   * A token reads as a taint exactly when it is `key=value:effect` with a
   * non-empty key and effect, split at the last `:` and the last `=` before it.
   */
  lemma TaintOfShape(token: string)
    ensures TaintOf(token).Some? ==>
      var t := TaintOf(token).value;
      token == t.key + "=" + t.value + ":" + t.effect && '=' !in t.value && ':' !in t.effect
    ensures !Regexp.HasTaintShape(token) ==> TaintOf(token).None?
    ensures forall k, v, e :: token == k + "=" + v + ":" + e && '=' !in v && ':' !in e ==>
      (TaintOf(token) == if k == "" || e == "" then None else Some(Taint(k, v, e)))
  {
    Regexp.MatchTaintFails(token);
    Regexp.MatchTaintShape(token);
    forall k, v, e | token == k + "=" + v + ":" + e && '=' !in v && ':' !in e
      ensures TaintOf(token) == if k == "" || e == "" then None else Some(Taint(k, v, e))
    {
      Regexp.TaintRoundTrip(k, v, e);
    }
  }

  /** Every taint token reads as a taint. */
  predicate AllTaints(tokens: seq<string>) {
    forall j :: 0 <= j < |tokens| ==> TaintOf(tokens[j]).Some?
  }

  /** The taints of all tokens in order, or `None` if some token is not a taint. */
  function TaintCaptures(tokens: seq<string>): (r: Option<seq<Taint>>)
    ensures r.Some? <==> AllTaints(tokens)
    ensures r.Some? ==> |r.value| == |tokens|
    ensures r.Some? ==> forall j :: 0 <= j < |tokens| ==> TaintOf(tokens[j]) == Some(r.value[j])
    decreases |tokens|
  {
    if |tokens| == 0 then Some([])
    else
      var init := tokens[..|tokens| - 1];
      assert forall j :: 0 <= j < |init| ==> init[j] == tokens[j];
      match TaintCaptures(init)
      case None => None
      case Some(ts) =>
        match TaintOf(tokens[|tokens| - 1])
        case None => None
        case Some(t) => Some(ts + [t])
  }

  /** Every taint has a key and an effect. */
  predicate TaintsWellFormed(ts: seq<Taint>) {
    forall t :: t in ts ==> t.key != "" && t.effect != ""
  }

  /**
   * `parseTaints` as a function: the text after the leftmost `taints=`, split
   * on `,`, one taint per token in the same order.
   */
  function TaintsOf(pair: string): (r: Result<seq<Taint>>)
    ensures r.Err? ==> r.error == InvalidTaints
    ensures !Strings.Contains(pair, "taints=") ==> r.Err?
    ensures Regexp.SubmatchAfter(pair, "taints=").Some? ==>
      (r.Ok? <==> AllTaints(Strings.Split(Regexp.SubmatchAfter(pair, "taints=").value, ',')))
    ensures r.Ok? ==>
      var tokens := Strings.Split(Regexp.SubmatchAfter(pair, "taints=").value, ',');
      |r.value| == |tokens| && forall j :: 0 <= j < |tokens| ==> TaintOf(tokens[j]) == Some(r.value[j])
    ensures r.Ok? ==> TaintsWellFormed(r.value)
  {
    match Regexp.SubmatchAfter(pair, "taints=")
    case None => Err(InvalidTaints)
    case Some(values) =>
      match TaintCaptures(Strings.Split(values, ','))
      case None => Err(InvalidTaints)
      case Some(ts) =>
        assert forall t :: t in ts ==> exists j :: 0 <= j < |ts| && ts[j] == t;
        Ok(ts)
  }

  /** One more token: the captures grow by its taint, or fail for good when it is not a taint. */
  lemma TaintCapturesStep(tokens: seq<string>, i: nat, ts: seq<Taint>)
    requires i < |tokens| && TaintCaptures(tokens[..i]) == Some(ts)
    ensures TaintOf(tokens[i]).Some? ==> TaintCaptures(tokens[..i + 1]) == Some(ts + [TaintOf(tokens[i]).value])
    ensures TaintOf(tokens[i]).None? ==> TaintCaptures(tokens) == None
  {
    assert tokens[..i + 1][..i] == tokens[..i];
  }

  /** `parseTaints`: appends the taints token by token. */
  method ParseTaints(pair: string) returns (res: Result<seq<Taint>>)
    requires '\n' !in pair
    ensures res == TaintsOf(pair)
  {
    var subStrs := Regexp.SubmatchAfter(pair, "taints=");
    if subStrs.None? {
      return Err(InvalidTaints);
    }
    var taintPairs := Strings.Split(subStrs.value, ',');
    var taints: seq<Taint> := [];
    assert taintPairs[..0] == [];
    for i := 0 to |taintPairs|
      invariant TaintCaptures(taintPairs[..i]) == Some(taints)
    {
      var m := Regexp.MatchTaint(taintPairs[i]);
      TaintCapturesStep(taintPairs, i, taints);
      if m.None? {
        return Err(InvalidTaints);
      }
      if m.value.2 == "" || m.value.0 == "" {
        return Err(InvalidTaints);
      }
      var taint := Taint(m.value.0, m.value.1, m.value.2);
      taints := taints + [taint];
    }
    assert taintPairs[..|taintPairs|] == taintPairs;
    return Ok(taints);
  }

  // ---------------------------------------------------------------------------
  // parseWorkerPool: the segment loop
  // ---------------------------------------------------------------------------

  /**
   * The loop's working state: `strFieldMap`, `intFieldMap`, `mapFieldMap`,
   * `taintsField` and `isEnableAutoScaling`.
   */
  datatype Fields = Fields(
    strs: map<string, string>,
    ints: map<string, int>,
    groups: map<string, map<string, string>>,
    taints: seq<Taint>,
    autoScaling: bool)

  const NoFields: Fields := Fields(map[], map[], map[], [], false)

  /** Where a `;`-separated segment goes. */
  datatype Route = ToLabels | ToTaints | ToScalar

  /** A segment that mentions `labels` anywhere is a labels segment, else one that mentions `taints` is a taints segment. */
  function RouteOf(pair: string): Route {
    if Strings.Contains(pair, "labels") then ToLabels
    else if Strings.Contains(pair, "taints") then ToTaints
    else ToScalar
  }

  /** The segment as a scalar `key=value`, when it is routed as a scalar and has an `=`. */
  function ScalarOf(pair: string): Option<(string, string)> {
    if RouteOf(pair) == ToScalar then Regexp.MatchKeyValue(pair) else None
  }

  /** One pass of the segment loop. */
  function Step(f: Fields, pair: string): Result<Fields> {
    match RouteOf(pair)
    case ToLabels =>
      (match LabelsOf(pair)
       case Err(e) => Err(e)
       case Ok(m) => Ok(f.(groups := f.groups["labels" := m])))
    case ToTaints =>
      (match TaintsOf(pair)
       case Err(e) => Err(e)
       case Ok(ts) => Ok(f.(taints := ts)))
    case ToScalar =>
      (match Regexp.MatchKeyValue(pair)
       case None => Err(InvalidInput)
       case Some((key, value)) => Ok(StoreScalar(f, key, value)))
  }

  /**
   * Storing a scalar: `enable_autoscaling` also sets the flag from
   * `ParseBool`; an integer field goes to the integer map through `Atoi`;
   * every other key, `enable_autoscaling` included, goes to the text map.
   */
  function StoreScalar(f: Fields, key: string, value: string): Fields {
    var auto := if key == "enable_autoscaling" then Strconv.ParseBool(value).0 else f.autoScaling;
    if IsIntField(key) then f.(ints := f.ints[key := Strconv.Atoi(value).0], autoScaling := auto)
    else f.(strs := f.strs[key := value], autoScaling := auto)
  }

  /** The segment loop over `pairs`: the first failing segment decides the error. */
  function Collect(pairs: seq<string>): Result<Fields>
    decreases |pairs|
  {
    if |pairs| == 0 then Ok(NoFields)
    else
      match Collect(pairs[..|pairs| - 1])
      case Err(e) => Err(e)
      case Ok(f) => Step(f, pairs[|pairs| - 1])
  }

  /** Once a prefix of the segments fails, the whole loop fails with the same error. */
  lemma {:induction false} CollectErrPersists(pairs: seq<string>, k: nat)
    requires k <= |pairs| && Collect(pairs[..k]).Err?
    ensures Collect(pairs) == Collect(pairs[..k])
    decreases |pairs| - k
  {
    if k < |pairs| {
      var init := pairs[..|pairs| - 1];
      assert init[..k] == pairs[..k];
      CollectErrPersists(init, k);
    } else {
      assert pairs[..k] == pairs;
    }
  }

  // ---------------------------------------------------------------------------
  // parseWorkerPool: validation and assembly
  // ---------------------------------------------------------------------------

  /** `fields[j]` is the first of `fields` that `m` leaves at the zero value. */
  predicate FirstUnsetAt<V(==)>(m: map<string, V>, fields: seq<string>, zero: V, j: nat) {
    j < |fields| && Get(m, fields[j], zero) == zero &&
    forall i :: 0 <= i < j ==> Get(m, fields[i], zero) != zero
  }

  /** The first of `fields`, in order, that `m` leaves at the zero value (absent or stored as zero). */
  function FirstUnset<V(==)>(m: map<string, V>, fields: seq<string>, zero: V): (r: Option<string>)
    ensures r.None? <==> forall j :: 0 <= j < |fields| ==> Get(m, fields[j], zero) != zero
    ensures r.Some? ==> exists j: nat :: FirstUnsetAt(m, fields, zero, j) && fields[j] == r.value
    decreases |fields|
  {
    if |fields| == 0 then None
    else if Get(m, fields[0], zero) == zero then
      assert FirstUnsetAt(m, fields, zero, 0);
      Some(fields[0])
    else
      var r := FirstUnset(m, fields[1..], zero);
      if r.Some? then
        var j: nat :| FirstUnsetAt(m, fields[1..], zero, j) && fields[1..][j] == r.value;
        assert FirstUnsetAt(m, fields, zero, j + 1);
        r
      else r
  }

  /** The two required-field loops: the first text field left empty, else the first integer field left zero. */
  function Validate(strs: map<string, string>, ints: map<string, int>): Option<ParseError> {
    match FirstUnset(strs, StrRequiredFields, "")
    case Some(field) => Some(MissingField(field))
    case None =>
      match FirstUnset(ints, IntRequiredFields, 0)
      case Some(field) => Some(MissingField(field))
      case None => None
  }

  /** The `gobizfly.WorkerPool` literal built from the loop's state. */
  function Assemble(f: Fields): WorkerPool {
    WorkerPool(
      name := Get(f.strs, "name", ""),
      flavor := Get(f.strs, "flavor", ""),
      profileType := Get(f.strs, "profile_type", ""),
      volumeType := Get(f.strs, "volume_type", ""),
      volumeSize := Get(f.ints, "volume_size", 0),
      availabilityZone := Get(f.strs, "availability_zone", ""),
      desiredSize := Get(f.ints, "desired_size", 0),
      enableAutoScaling := f.autoScaling,
      minSize := Get(f.ints, "min_size", 0),
      maxSize := Get(f.ints, "max_size", 0),
      labels := if "labels" in f.groups then Some(f.groups["labels"]) else None,
      taints := f.taints)
  }

  /** What a successful parse guarantees: every mandatory field is set and every taint has a key and an effect. */
  predicate Complete(wp: WorkerPool) {
    wp.name != "" && wp.flavor != "" && wp.profileType != "" && wp.volumeType != "" &&
    wp.availabilityZone != "" &&
    wp.volumeSize != 0 && wp.desiredSize != 0 && wp.minSize != 0 && wp.maxSize != 0 &&
    TaintsWellFormed(wp.taints)
  }

  /** The loop only ever stores taints that have a key and an effect. */
  lemma {:induction false} CollectTaintsWellFormed(pairs: seq<string>)
    requires Collect(pairs).Ok?
    ensures TaintsWellFormed(Collect(pairs).value.taints)
    decreases |pairs|
  {
    if |pairs| > 0 {
      var init := pairs[..|pairs| - 1];
      var pair := pairs[|pairs| - 1];
      assert Collect(init).Ok?;
      CollectTaintsWellFormed(init);
      if RouteOf(pair) == ToTaints {
        assert TaintsOf(pair).Ok?;
      }
    }
  }

  /** `parseWorkerPool` as a function. */
  function WorkerPoolOf(workerPoolStr: string): (r: Result<WorkerPool>)
    ensures r.Ok? ==> Complete(r.value)
  {
    var pairs := Strings.Split(workerPoolStr, ';');
    match Collect(pairs)
    case Err(e) => Err(e)
    case Ok(f) =>
      match Validate(f.strs, f.ints)
      case Some(e) => Err(e)
      case None =>
        CollectTaintsWellFormed(pairs);
        assert Get(f.strs, StrRequiredFields[0], "") != "";
        assert Get(f.strs, StrRequiredFields[1], "") != "";
        assert Get(f.strs, StrRequiredFields[2], "") != "";
        assert Get(f.strs, StrRequiredFields[3], "") != "";
        assert Get(f.strs, StrRequiredFields[4], "") != "";
        assert Get(f.ints, IntRequiredFields[0], 0) != 0;
        assert Get(f.ints, IntRequiredFields[1], 0) != 0;
        assert Get(f.ints, IntRequiredFields[2], 0) != 0;
        assert Get(f.ints, IntRequiredFields[3], 0) != 0;
        Ok(Assemble(f))
  }

  /** `FirstUnset` reads the map only through `Get` on the listed fields. */
  lemma {:induction false} FirstUnsetSameReads<V>(m1: map<string, V>, m2: map<string, V>, fields: seq<string>, zero: V)
    requires forall k :: 0 <= k < |fields| ==> Get(m1, fields[k], zero) == Get(m2, fields[k], zero)
    ensures FirstUnset(m1, fields, zero) == FirstUnset(m2, fields, zero)
    decreases |fields|
  {
    if |fields| > 0 {
      FirstUnsetSameReads(m1, m2, fields[1..], zero);
    }
  }

  /**
   * A mandatory field given as the zero value (`name=` or `max_size=0`, or an
   * integer `Atoi` cannot read) counts as missing, exactly as if it had not
   * been given at all.
   */
  lemma ZeroSameAsMissing(strs: map<string, string>, ints: map<string, int>, field: string)
    ensures Validate(strs[field := ""], ints) == Validate(strs - {field}, ints)
    ensures Validate(strs, ints[field := 0]) == Validate(strs, ints - {field})
  {
    FirstUnsetSameReads(strs[field := ""], strs - {field}, StrRequiredFields, "");
    FirstUnsetSameReads(ints[field := 0], ints - {field}, IntRequiredFields, 0);
  }

  /**
   * Validation passes exactly when every mandatory text field is non-empty
   * and every mandatory integer field is non-zero; otherwise it reports a
   * mandatory field that is unset, text fields before integer fields.
   */
  lemma ValidateSound(strs: map<string, string>, ints: map<string, int>)
    ensures Validate(strs, ints).None? <==>
      (forall k :: 0 <= k < |StrRequiredFields| ==> Get(strs, StrRequiredFields[k], "") != "") &&
      (forall k :: 0 <= k < |IntRequiredFields| ==> Get(ints, IntRequiredFields[k], 0) != 0)
    ensures Validate(strs, ints).Some? ==>
      exists j: nat :: (FirstUnsetAt(strs, StrRequiredFields, "", j) &&
                        Validate(strs, ints) == Some(MissingField(StrRequiredFields[j]))) ||
                       ((forall k :: 0 <= k < |StrRequiredFields| ==> Get(strs, StrRequiredFields[k], "") != "") &&
                        FirstUnsetAt(ints, IntRequiredFields, 0, j) &&
                        Validate(strs, ints) == Some(MissingField(IntRequiredFields[j])))
  {
  }

  /** A parse succeeds exactly when the segment loop succeeds and validation passes. */
  lemma WorkerPoolOkIff(workerPoolStr: string)
    ensures var c := Collect(Strings.Split(workerPoolStr, ';'));
      WorkerPoolOf(workerPoolStr).Ok? <==> c.Ok? && Validate(c.value.strs, c.value.ints).None?
  {
  }

  /** A parsed record is read off the loop's maps, flag, taints and label group. */
  lemma WorkerPoolFromMaps(workerPoolStr: string)
    ensures var c := Collect(Strings.Split(workerPoolStr, ';'));
      WorkerPoolOf(workerPoolStr).Ok? ==>
        var wp := WorkerPoolOf(workerPoolStr).value;
        wp.name == c.value.strs["name"] && wp.flavor == c.value.strs["flavor"] &&
        wp.profileType == c.value.strs["profile_type"] && wp.volumeType == c.value.strs["volume_type"] &&
        wp.availabilityZone == c.value.strs["availability_zone"] &&
        wp.volumeSize == c.value.ints["volume_size"] && wp.desiredSize == c.value.ints["desired_size"] &&
        wp.minSize == c.value.ints["min_size"] && wp.maxSize == c.value.ints["max_size"] &&
        wp.enableAutoScaling == c.value.autoScaling && wp.taints == c.value.taints &&
        (wp.labels.Some? <==> "labels" in c.value.groups) &&
        (wp.labels.Some? ==> wp.labels.value == c.value.groups["labels"])
  {
    var c := Collect(Strings.Split(workerPoolStr, ';'));
    WorkerPoolOkIff(workerPoolStr);
    if WorkerPoolOf(workerPoolStr).Ok? {
      var f := c.value;
      ValidateSound(f.strs, f.ints);
      assert Get(f.strs, StrRequiredFields[0], "") != "";
      assert Get(f.strs, StrRequiredFields[1], "") != "";
      assert Get(f.strs, StrRequiredFields[2], "") != "";
      assert Get(f.strs, StrRequiredFields[3], "") != "";
      assert Get(f.strs, StrRequiredFields[4], "") != "";
      assert Get(f.ints, IntRequiredFields[0], 0) != 0;
      assert Get(f.ints, IntRequiredFields[1], 0) != 0;
      assert Get(f.ints, IntRequiredFields[2], 0) != 0;
      assert Get(f.ints, IntRequiredFields[3], 0) != 0;
    }
  }

  /**
   * Ending the input with a mandatory field set to its zero value (`;name=`,
   * `;max_size=0`, `;min_size=abc`) makes the whole parse fail, whatever came
   * before.
   */
  lemma ZeroLastFieldFails(workerPoolStr: string, field: string, value: string)
    requires ';' !in field && ';' !in value && '=' !in value
    requires RouteOf(field + "=" + value) == ToScalar
    requires (field in StrRequiredFields && value == "") ||
             (field in IntRequiredFields && Strconv.Atoi(value).0 == 0)
    ensures WorkerPoolOf(workerPoolStr + ";" + field + "=" + value).Err?
  {
    var seg := field + "=" + value;
    var pairs := Strings.Split(workerPoolStr, ';');
    var all := pairs + [seg];
    assert Strings.Split(workerPoolStr + ";" + field + "=" + value, ';') == all by {
      assert workerPoolStr + ";" + field + "=" + value == workerPoolStr + [';'] + seg;
      Strings.SplitAppend(workerPoolStr, seg, ';');
    }
    WorkerPoolOkIff(workerPoolStr + ";" + field + "=" + value);
    ZeroSegmentInvalid(pairs, field, value);
  }

  /** After a zero-valued mandatory segment, the loop has failed or validation fails. */
  lemma ZeroSegmentInvalid(pairs: seq<string>, field: string, value: string)
    requires '=' !in value && RouteOf(field + "=" + value) == ToScalar
    requires (field in StrRequiredFields && value == "") ||
             (field in IntRequiredFields && Strconv.Atoi(value).0 == 0)
    ensures var c := Collect(pairs + [field + "=" + value]);
      c.Err? || Validate(c.value.strs, c.value.ints).Some?
  {
    var all := pairs + [field + "=" + value];
    if Collect(pairs).Ok? {
      CollectScalarSnoc(pairs, field, value);
      StoredZeroInvalid(Collect(pairs).value, field, value);
    } else {
      assert all[..|all| - 1] == pairs;
    }
  }

  /** Storing a mandatory field with its zero value makes validation fail. */
  lemma StoredZeroInvalid(f: Fields, field: string, value: string)
    requires (field in StrRequiredFields && value == "") ||
             (field in IntRequiredFields && Strconv.Atoi(value).0 == 0)
    ensures Validate(StoreScalar(f, field, value).strs, StoreScalar(f, field, value).ints).Some?
  {
    var g := StoreScalar(f, field, value);
    RequiredFieldsClassified();
    ValidateSound(g.strs, g.ints);
    if field in StrRequiredFields {
      var k :| 0 <= k < |StrRequiredFields| && StrRequiredFields[k] == field;
      assert Get(g.strs, StrRequiredFields[k], "") == "";
    } else {
      var k :| 0 <= k < |IntRequiredFields| && IntRequiredFields[k] == field;
      assert Get(g.ints, IntRequiredFields[k], 0) == 0;
    }
  }

  /** A scalar segment `key=value`. */
  function Segment(kv: (string, string)): string {
    kv.0 + "=" + kv.1
  }

  function SegmentsOf(kvs: seq<(string, string)>): (segs: seq<string>)
    ensures |segs| == |kvs| && forall i :: 0 <= i < |kvs| ==> segs[i] == Segment(kvs[i])
  {
    seq(|kvs|, i requires 0 <= i < |kvs| => Segment(kvs[i]))
  }

  /** A value that fits in one segment: it holds neither separator. */
  predicate PlainValue(v: string) {
    ';' !in v && '=' !in v
  }

  /** Pairs that each render as one scalar segment the loop reads back. */
  predicate ScalarPairs(kvs: seq<(string, string)>) {
    forall i {:trigger Segment(kvs[i])} :: 0 <= i < |kvs| ==>
      ';' !in kvs[i].0 && PlainValue(kvs[i].1) && RouteOf(Segment(kvs[i])) == ToScalar
  }

  predicate DistinctKeys(kvs: seq<(string, string)>) {
    forall i, j :: 0 <= i < j < |kvs| ==> kvs[i].0 != kvs[j].0
  }

  /** A loop over scalar segments only succeeds and leaves the labels and taints unset. */
  lemma {:induction false} CollectScalarsOk(kvs: seq<(string, string)>)
    requires ScalarPairs(kvs)
    ensures Collect(SegmentsOf(kvs)).Ok?
    ensures "labels" !in Collect(SegmentsOf(kvs)).value.groups
    ensures Collect(SegmentsOf(kvs)).value.taints == []
    decreases |kvs|
  {
    var segs := SegmentsOf(kvs);
    if |kvs| > 0 {
      var init := kvs[..|kvs| - 1];
      assert ScalarPairs(init) by {
        forall i | 0 <= i < |init| ensures kvs[i] == init[i] { }
      }
      CollectScalarsOk(init);
      assert segs[..|segs| - 1] == SegmentsOf(init);
      var kv := kvs[|kvs| - 1];
      assert segs == SegmentsOf(init) + [kv.0 + "=" + kv.1];
      CollectScalarSnoc(SegmentsOf(init), kv.0, kv.1);
    }
  }

  /** With distinct keys, every pair's value is what the loop stores under its key. */
  lemma ScalarPairStored(kvs: seq<(string, string)>, j: nat, key: string, value: string)
    requires ScalarPairs(kvs) && DistinctKeys(kvs) && j < |kvs| && kvs[j] == (key, value)
    ensures Collect(SegmentsOf(kvs)).Ok?
    ensures IsIntField(key) ==>
      key in Collect(SegmentsOf(kvs)).value.ints && Collect(SegmentsOf(kvs)).value.ints[key] == Strconv.Atoi(value).0
    ensures !IsIntField(key) ==>
      key in Collect(SegmentsOf(kvs)).value.strs && Collect(SegmentsOf(kvs)).value.strs[key] == value
    ensures key == "enable_autoscaling" ==> Collect(SegmentsOf(kvs)).value.autoScaling == Strconv.ParseBool(value).0
  {
    var segs := SegmentsOf(kvs);
    CollectScalarsOk(kvs);
    Regexp.KeyValueRoundTrip(key, value);
    forall i | 0 <= i < |segs| && j < i
      ensures ScalarOf(segs[i]).None? || ScalarOf(segs[i]).value.0 != key
    {
      Regexp.KeyValueRoundTrip(kvs[i].0, kvs[i].1);
    }
    LastScalarWins(segs, j, key, value);
  }

  /** The record's fields as `key=value` pairs, one per scalar field, in the order the record lists them. */
  function FieldPairs(wp: WorkerPool): seq<(string, string)> {
    [("name", wp.name), ("flavor", wp.flavor), ("profile_type", wp.profileType),
     ("volume_type", wp.volumeType), ("volume_size", Strconv.Itoa(wp.volumeSize)),
     ("availability_zone", wp.availabilityZone), ("desired_size", Strconv.Itoa(wp.desiredSize)),
     ("enable_autoscaling", Strconv.FormatBool(wp.enableAutoScaling)),
     ("min_size", Strconv.Itoa(wp.minSize)), ("max_size", Strconv.Itoa(wp.maxSize))]
  }

  /** The worker-pool string that sets every scalar field of `wp`. */
  function Render(wp: WorkerPool): string {
    Strings.Join(SegmentsOf(FieldPairs(wp)), ';')
  }

  lemma FieldPairsAt(wp: WorkerPool)
    ensures |FieldPairs(wp)| == 10
    ensures FieldPairs(wp)[0] == ("name", wp.name) && FieldPairs(wp)[1] == ("flavor", wp.flavor)
    ensures FieldPairs(wp)[2] == ("profile_type", wp.profileType) && FieldPairs(wp)[3] == ("volume_type", wp.volumeType)
    ensures FieldPairs(wp)[5] == ("availability_zone", wp.availabilityZone)
    ensures FieldPairs(wp)[4] == ("volume_size", Strconv.Itoa(wp.volumeSize))
    ensures FieldPairs(wp)[6] == ("desired_size", Strconv.Itoa(wp.desiredSize))
    ensures FieldPairs(wp)[7] == ("enable_autoscaling", Strconv.FormatBool(wp.enableAutoScaling))
    ensures FieldPairs(wp)[8] == ("min_size", Strconv.Itoa(wp.minSize))
    ensures FieldPairs(wp)[9] == ("max_size", Strconv.Itoa(wp.maxSize))
  {
  }

  /** The record's ten field names are distinct. */
  lemma FieldKeysDistinct(wp: WorkerPool)
    ensures DistinctKeys(FieldPairs(wp))
  {
  }

  /** Joining scalar segments with `;` and splitting again gives the segments back. */
  lemma SplitRendered(kvs: seq<(string, string)>)
    requires |kvs| >= 1 && ScalarPairs(kvs)
    ensures Strings.Split(Strings.Join(SegmentsOf(kvs), ';'), ';') == SegmentsOf(kvs)
  {
    var segs := SegmentsOf(kvs);
    forall i | 0 <= i < |segs| ensures ';' !in segs[i] {
      assert segs[i] == kvs[i].0 + "=" + kvs[i].1;
    }
    Strings.SplitJoin(segs, ';');
  }

  /** The loop over a record's rendered segments stores its five texts under their keys. */
  lemma RenderedTexts(wp: WorkerPool)
    requires ScalarPairs(FieldPairs(wp))
    ensures Collect(SegmentsOf(FieldPairs(wp))).Ok?
    ensures var f := Collect(SegmentsOf(FieldPairs(wp))).value;
      Get(f.strs, "name", "") == wp.name && Get(f.strs, "flavor", "") == wp.flavor &&
      Get(f.strs, "profile_type", "") == wp.profileType && Get(f.strs, "volume_type", "") == wp.volumeType &&
      Get(f.strs, "availability_zone", "") == wp.availabilityZone
  {
    FieldPairsAt(wp);
    FieldKeysDistinct(wp);
    NamesStored(FieldPairs(wp), wp);
    PlacementStored(FieldPairs(wp), wp);
  }

  /** Pairs laid out as `FieldPairs` lays out a record leave its name, flavor and profile type in the text map. */
  lemma NamesStored(kvs: seq<(string, string)>, wp: WorkerPool)
    requires ScalarPairs(kvs) && DistinctKeys(kvs) && |kvs| == 10
    requires kvs[0] == ("name", wp.name) && kvs[1] == ("flavor", wp.flavor)
    requires kvs[2] == ("profile_type", wp.profileType)
    ensures Collect(SegmentsOf(kvs)).Ok?
    ensures var f := Collect(SegmentsOf(kvs)).value;
      Get(f.strs, "name", "") == wp.name && Get(f.strs, "flavor", "") == wp.flavor &&
      Get(f.strs, "profile_type", "") == wp.profileType
  {
    StoredText(kvs, 0, "name", wp.name);
    StoredText(kvs, 1, "flavor", wp.flavor);
    StoredText(kvs, 2, "profile_type", wp.profileType);
  }

  /** Pairs laid out as `FieldPairs` lays out a record leave its volume type and zone in the text map. */
  lemma PlacementStored(kvs: seq<(string, string)>, wp: WorkerPool)
    requires ScalarPairs(kvs) && DistinctKeys(kvs) && |kvs| == 10
    requires kvs[3] == ("volume_type", wp.volumeType) && kvs[5] == ("availability_zone", wp.availabilityZone)
    ensures Collect(SegmentsOf(kvs)).Ok?
    ensures var f := Collect(SegmentsOf(kvs)).value;
      Get(f.strs, "volume_type", "") == wp.volumeType && Get(f.strs, "availability_zone", "") == wp.availabilityZone
  {
    StoredText(kvs, 3, "volume_type", wp.volumeType);
    StoredText(kvs, 5, "availability_zone", wp.availabilityZone);
  }

  /** A text pair among pairs with distinct keys is read back from the text map. */
  lemma StoredText(kvs: seq<(string, string)>, j: nat, key: string, value: string)
    requires ScalarPairs(kvs) && DistinctKeys(kvs) && j < |kvs| && kvs[j] == (key, value) && !IsIntField(key)
    ensures Collect(SegmentsOf(kvs)).Ok? && Get(Collect(SegmentsOf(kvs)).value.strs, key, "") == value
  {
    ScalarPairStored(kvs, j, key, value);
  }

  /** The loop over a record's rendered segments reads back its four sizes and its autoscaling flag. */
  lemma RenderedSizes(wp: WorkerPool)
    requires ScalarPairs(FieldPairs(wp))
    requires Strconv.MinInt <= wp.volumeSize <= Strconv.MaxInt && Strconv.MinInt <= wp.desiredSize <= Strconv.MaxInt
    requires Strconv.MinInt <= wp.minSize <= Strconv.MaxInt && Strconv.MinInt <= wp.maxSize <= Strconv.MaxInt
    ensures Collect(SegmentsOf(FieldPairs(wp))).Ok?
    ensures var f := Collect(SegmentsOf(FieldPairs(wp))).value;
      Get(f.ints, "volume_size", 0) == wp.volumeSize && Get(f.ints, "desired_size", 0) == wp.desiredSize &&
      Get(f.ints, "min_size", 0) == wp.minSize && Get(f.ints, "max_size", 0) == wp.maxSize &&
      f.autoScaling == wp.enableAutoScaling
  {
    FieldPairsAt(wp);
    FieldKeysDistinct(wp);
    Strconv.AtoiItoa(wp.volumeSize);
    Strconv.AtoiItoa(wp.desiredSize);
    Strconv.AtoiItoa(wp.minSize);
    Strconv.AtoiItoa(wp.maxSize);
    Strconv.ParseBoolFormatBool(wp.enableAutoScaling);
    SizesStored(FieldPairs(wp), wp);
  }

  /** Pairs laid out as `FieldPairs` lays out a record, with sizes that read back, leave its sizes and flag in the loop's state. */
  lemma SizesStored(kvs: seq<(string, string)>, wp: WorkerPool)
    requires ScalarPairs(kvs) && DistinctKeys(kvs) && |kvs| == 10
    requires kvs[4] == ("volume_size", Strconv.Itoa(wp.volumeSize)) && kvs[6] == ("desired_size", Strconv.Itoa(wp.desiredSize))
    requires kvs[7] == ("enable_autoscaling", Strconv.FormatBool(wp.enableAutoScaling))
    requires kvs[8] == ("min_size", Strconv.Itoa(wp.minSize)) && kvs[9] == ("max_size", Strconv.Itoa(wp.maxSize))
    requires Strconv.Atoi(Strconv.Itoa(wp.volumeSize)).0 == wp.volumeSize
    requires Strconv.Atoi(Strconv.Itoa(wp.desiredSize)).0 == wp.desiredSize
    requires Strconv.Atoi(Strconv.Itoa(wp.minSize)).0 == wp.minSize
    requires Strconv.Atoi(Strconv.Itoa(wp.maxSize)).0 == wp.maxSize
    requires Strconv.ParseBool(Strconv.FormatBool(wp.enableAutoScaling)).0 == wp.enableAutoScaling
    ensures Collect(SegmentsOf(kvs)).Ok?
    ensures var f := Collect(SegmentsOf(kvs)).value;
      Get(f.ints, "volume_size", 0) == wp.volumeSize && Get(f.ints, "desired_size", 0) == wp.desiredSize &&
      Get(f.ints, "min_size", 0) == wp.minSize && Get(f.ints, "max_size", 0) == wp.maxSize &&
      f.autoScaling == wp.enableAutoScaling
  {
    ScalarPairStored(kvs, 4, "volume_size", Strconv.Itoa(wp.volumeSize));
    ScalarPairStored(kvs, 6, "desired_size", Strconv.Itoa(wp.desiredSize));
    ScalarPairStored(kvs, 7, "enable_autoscaling", Strconv.FormatBool(wp.enableAutoScaling));
    ScalarPairStored(kvs, 8, "min_size", Strconv.Itoa(wp.minSize));
    ScalarPairStored(kvs, 9, "max_size", Strconv.Itoa(wp.maxSize));
  }

  /**
   * A record the command line can express with scalar segments only: it is
   * complete, has no labels and no taints, its sizes fit in 64 bits, and
   * every field renders as a segment the loop reads as a scalar (no `;` or
   * `=` in a text, no mention of `labels` or `taints`).
   */
  predicate Renderable(wp: WorkerPool) {
    Complete(wp) && wp.labels.None? && wp.taints == [] &&
    Strconv.MinInt <= wp.volumeSize <= Strconv.MaxInt && Strconv.MinInt <= wp.desiredSize <= Strconv.MaxInt &&
    Strconv.MinInt <= wp.minSize <= Strconv.MaxInt && Strconv.MinInt <= wp.maxSize <= Strconv.MaxInt &&
    ScalarPairs(FieldPairs(wp))
  }

  /** Parsing the rendering of a renderable record gives the record back. */
  lemma ParseRender(wp: WorkerPool)
    requires Renderable(wp)
    ensures WorkerPoolOf(Render(wp)) == Ok(wp)
  {
    var kvs := FieldPairs(wp);
    SplitRendered(kvs);
    RenderedTexts(wp);
    RenderedSizes(wp);
    CollectScalarsOk(kvs);
    var f := Collect(SegmentsOf(kvs)).value;
    ValidateSound(f.strs, f.ints);
    WorkerPoolOkIff(Render(wp));
    WorkerPoolFromMaps(Render(wp));
  }

  /**
   * The two required-field loops of `parseWorkerPool`: the first mandatory
   * text field that is empty, else the first mandatory integer field that is
   * zero, is reported as missing.
   */
  method CheckRequired(strFieldMap: map<string, string>, intFieldMap: map<string, int>)
    returns (missing: Option<ParseError>)
    ensures missing == Validate(strFieldMap, intFieldMap)
  {
    for j := 0 to |StrRequiredFields|
      invariant forall k :: 0 <= k < j ==> Get(strFieldMap, StrRequiredFields[k], "") != ""
    {
      var field := StrRequiredFields[j];
      if Get(strFieldMap, field, "") == "" {
        assert FirstUnsetAt(strFieldMap, StrRequiredFields, "", j);
        return Some(MissingField(field));
      }
    }
    for j := 0 to |IntRequiredFields|
      invariant forall k :: 0 <= k < j ==> Get(intFieldMap, IntRequiredFields[k], 0) != 0
    {
      var field := IntRequiredFields[j];
      if Get(intFieldMap, field, 0) == 0 {
        assert FirstUnsetAt(intFieldMap, IntRequiredFields, 0, j);
        return Some(MissingField(field));
      }
    }
    return None;
  }

  /** One more segment: the loop's state after it is one `Step` further. */
  lemma CollectStep(pairs: seq<string>, i: nat)
    requires i < |pairs| && Collect(pairs[..i]).Ok?
    ensures Collect(pairs[..i + 1]) == Step(Collect(pairs[..i]).value, pairs[i])
  {
    var prefix := pairs[..i + 1];
    assert prefix[..|prefix| - 1] == pairs[..i] && prefix[|prefix| - 1] == pairs[i];
  }

  /** `parseWorkerPool`: the segment loop, then the two required-field loops, then the record. */
  method ParseWorkerPool(workerPoolStr: string) returns (res: Result<WorkerPool>)
    requires '\n' !in workerPoolStr
    ensures res == WorkerPoolOf(workerPoolStr)
    ensures res.Ok? ==> Complete(res.value)
  {
    var pairs := Strings.Split(workerPoolStr, ';');
    Strings.SplitKeepsAbsent(workerPoolStr, ';', '\n');
    var strFieldMap: map<string, string> := map[];
    var intFieldMap: map<string, int> := map[];
    var mapFieldMap: map<string, map<string, string>> := map[];
    var taintsField: seq<Taint> := [];
    var isEnableAutoScaling := false;
    for i := 0 to |pairs|
      invariant Collect(pairs[..i]) == Ok(Fields(strFieldMap, intFieldMap, mapFieldMap, taintsField, isEnableAutoScaling))
    {
      var pair := pairs[i];
      CollectStep(pairs, i);
      if Strings.Contains(pair, "labels") {
        var labels := ParseLabels(pair);
        if labels.Err? {
          CollectErrPersists(pairs, i + 1);
          return Err(labels.error);
        }
        mapFieldMap := mapFieldMap["labels" := labels.value];
        continue;
      }
      if Strings.Contains(pair, "taints") {
        var taints := ParseTaints(pair);
        if taints.Err? {
          CollectErrPersists(pairs, i + 1);
          return Err(taints.error);
        }
        taintsField := taints.value;
        continue;
      }
      var subStrs := Regexp.MatchKeyValue(pair);
      if subStrs.None? {
        CollectErrPersists(pairs, i + 1);
        return Err(InvalidInput);
      }
      var key, value := subStrs.value.0, subStrs.value.1;
      if key == "enable_autoscaling" {
        var b := Strconv.ParseBool(value).0;
        isEnableAutoScaling := b;
      }
      if IsIntField(key) {
        var n := Strconv.Atoi(value).0;
        intFieldMap := intFieldMap[key := n];
      } else {
        strFieldMap := strFieldMap[key := value];
      }
    }
    assert pairs[..|pairs|] == pairs;
    var missing := CheckRequired(strFieldMap, intFieldMap);
    if missing.Some? {
      return Err(missing.value);
    }
    res := Ok(WorkerPool(
      name := Get(strFieldMap, "name", ""),
      flavor := Get(strFieldMap, "flavor", ""),
      profileType := Get(strFieldMap, "profile_type", ""),
      volumeType := Get(strFieldMap, "volume_type", ""),
      volumeSize := Get(intFieldMap, "volume_size", 0),
      availabilityZone := Get(strFieldMap, "availability_zone", ""),
      desiredSize := Get(intFieldMap, "desired_size", 0),
      enableAutoScaling := isEnableAutoScaling,
      minSize := Get(intFieldMap, "min_size", 0),
      maxSize := Get(intFieldMap, "max_size", 0),
      labels := if "labels" in mapFieldMap then Some(mapFieldMap["labels"]) else None,
      taints := taintsField));
  }

  // ---------------------------------------------------------------------------
  // Properties of the segment loop
  // ---------------------------------------------------------------------------

  /**
   * A segment that mentions `labels` or `taints` never reaches the scalar
   * maps or the autoscaling flag, and one that mentions both goes to the
   * labels parser.
   */
  lemma RoutedSegmentsSkipScalars(f: Fields, pair: string)
    requires RouteOf(pair) != ToScalar
    ensures Step(f, pair).Ok? ==>
      var g := Step(f, pair).value;
      g.strs == f.strs && g.ints == f.ints && g.autoScaling == f.autoScaling
    ensures Strings.Contains(pair, "labels") && Strings.Contains(pair, "taints") ==>
      (Step(f, pair).Ok? <==> LabelsOf(pair).Ok?) &&
      (Step(f, pair).Ok? ==> Step(f, pair).value == f.(groups := f.groups["labels" := LabelsOf(pair).value]))
    ensures RouteOf(pair) == ToLabels ==> Step(f, pair).Ok? ==> Step(f, pair).value.taints == f.taints
    ensures RouteOf(pair) == ToTaints ==> Step(f, pair).Ok? ==> Step(f, pair).value.groups == f.groups
  {
  }

  /**
   * `name=mylabels` mentions `labels`, so it goes to the labels parser, which
   * rejects it because it holds no `labels=`.
   */
  lemma MentionOfLabelsIsRouted(f: Fields)
    ensures RouteOf("name=mylabels") == ToLabels
    ensures Step(f, "name=mylabels") == Err(InvalidLabels)
  {
    MyLabelsMentions();
  }

  /** `name=mylabels` holds `labels` but not `labels=`. */
  lemma MyLabelsMentions()
    ensures Strings.Contains("name=mylabels", "labels")
    ensures !Strings.Contains("name=mylabels", "labels=")
  {
    var s := "name=mylabels";
    assert Strings.OccursAt(s, "labels", 7);
    Strings.ContainsOccurs(s, "labels");
    Strings.ContainsOccurs(s, "labels=");
    assert '=' !in s[6..];
    forall j: nat | j + 7 <= |s|
      ensures !Strings.OccursAt(s, "labels=", j)
    {
      assert s[j + 6] == s[6..][j];
      assert s[j..j + 7][6] == s[j + 6];
    }
  }

  /** A scalar segment without `=` is rejected. */
  lemma ScalarWithoutEquals(f: Fields, pair: string)
    requires RouteOf(pair) == ToScalar && '=' !in pair
    ensures Step(f, pair) == Err(InvalidInput)
  {
  }

  /**
   * A scalar segment `key=value` whose value has no `=` is stored under
   * `key`: in the integer map when `IsIntField(key)`, else in the text map.
   */
  lemma ScalarSegmentStored(f: Fields, key: string, value: string)
    requires RouteOf(key + "=" + value) == ToScalar && '=' !in value
    ensures Step(f, key + "=" + value).Ok?
    ensures var g := Step(f, key + "=" + value).value;
      g.groups == f.groups && g.taints == f.taints &&
      (IsIntField(key) ==> g.ints == f.ints[key := Strconv.Atoi(value).0] && g.strs == f.strs) &&
      (!IsIntField(key) ==> g.strs == f.strs[key := value] && g.ints == f.ints) &&
      g.autoScaling == (if key == "enable_autoscaling" then Strconv.ParseBool(value).0 else f.autoScaling)
  {
    Regexp.KeyValueRoundTrip(key, value);
  }

  /** Appending a scalar segment to the loop's input stores it after everything before it. */
  lemma CollectScalarSnoc(pairs: seq<string>, key: string, value: string)
    requires Collect(pairs).Ok?
    requires RouteOf(key + "=" + value) == ToScalar && '=' !in value
    ensures Collect(pairs + [key + "=" + value]) == Ok(StoreScalar(Collect(pairs).value, key, value))
  {
    assert (pairs + [key + "=" + value])[..|pairs|] == pairs;
    Regexp.KeyValueRoundTrip(key, value);
  }

  /** A step whose segment is not a scalar with this key leaves the key's entries and, for `enable_autoscaling`, the flag alone. */
  lemma StepKeepsScalar(f: Fields, pair: string, key: string)
    requires Step(f, pair).Ok?
    requires ScalarOf(pair).None? || ScalarOf(pair).value.0 != key
    ensures var g := Step(f, pair).value;
      (key in g.strs <==> key in f.strs) && (key in f.strs ==> g.strs[key] == f.strs[key]) &&
      (key in g.ints <==> key in f.ints) && (key in f.ints ==> g.ints[key] == f.ints[key]) &&
      (key == "enable_autoscaling" ==> g.autoScaling == f.autoScaling)
  {
  }

  /** A scalar segment is stored under its key. */
  lemma StepScalar(f: Fields, pair: string)
    requires ScalarOf(pair).Some?
    ensures Step(f, pair) == Ok(StoreScalar(f, ScalarOf(pair).value.0, ScalarOf(pair).value.1))
  {
  }

  /** No later segment is a scalar with this key. */
  predicate NoLaterScalar(pairs: seq<string>, j: int, key: string) {
    forall i :: 0 <= i < |pairs| && j < i ==> ScalarOf(pairs[i]).None? || ScalarOf(pairs[i]).value.0 != key
  }

  /**
   * A scalar key given more than once keeps the value of its last segment;
   * for `enable_autoscaling` so does the flag.
   */
  lemma {:induction false} LastScalarWins(pairs: seq<string>, j: nat, key: string, value: string)
    requires Collect(pairs).Ok?
    requires j < |pairs| && ScalarOf(pairs[j]) == Some((key, value))
    requires NoLaterScalar(pairs, j, key)
    ensures var f := Collect(pairs).value;
      (IsIntField(key) ==> key in f.ints && f.ints[key] == Strconv.Atoi(value).0) &&
      (!IsIntField(key) ==> key in f.strs && f.strs[key] == value) &&
      (key == "enable_autoscaling" ==> f.autoScaling == Strconv.ParseBool(value).0)
    decreases |pairs|
  {
    var init := pairs[..|pairs| - 1];
    assert Collect(init).Ok?;
    if j < |pairs| - 1 {
      assert init[j] == pairs[j];
      assert NoLaterScalar(init, j, key) by {
        forall i | 0 <= i < |init| && j < i ensures ScalarOf(init[i]).None? || ScalarOf(init[i]).value.0 != key {
          assert init[i] == pairs[i];
        }
      }
      LastScalarWins(init, j, key, value);
      StepKeepsScalar(Collect(init).value, pairs[|pairs| - 1], key);
    } else {
      StepScalar(Collect(init).value, pairs[j]);
    }
  }

  /**
   * A key that no scalar segment sets stays out of both maps, so it reads as
   * the zero value; the autoscaling flag then stays false.
   */
  lemma {:induction false} UnsetScalarDefaults(pairs: seq<string>, key: string)
    requires Collect(pairs).Ok?
    requires NoLaterScalar(pairs, -1, key)
    ensures key !in Collect(pairs).value.strs && key !in Collect(pairs).value.ints
    ensures key == "enable_autoscaling" ==> !Collect(pairs).value.autoScaling
    decreases |pairs|
  {
    if |pairs| > 0 {
      var init := pairs[..|pairs| - 1];
      assert Collect(init).Ok?;
      assert NoLaterScalar(init, -1, key) by {
        forall i | 0 <= i < |init| ensures ScalarOf(init[i]).None? || ScalarOf(init[i]).value.0 != key {
          assert init[i] == pairs[i];
        }
      }
      UnsetScalarDefaults(init, key);
      StepKeepsScalar(Collect(init).value, pairs[|pairs| - 1], key);
    }
  }

  /** No later segment goes to the given parser. */
  predicate NoLaterRoute(pairs: seq<string>, j: int, route: Route) {
    forall i :: 0 <= i < |pairs| && j < i ==> RouteOf(pairs[i]) != route
  }

  /** A step whose segment is not a labels segment leaves the group map alone; one that is not a taints segment leaves the taints alone. */
  lemma StepKeepsGroups(f: Fields, pair: string)
    requires Step(f, pair).Ok?
    ensures RouteOf(pair) != ToLabels ==> Step(f, pair).value.groups == f.groups
    ensures RouteOf(pair) != ToTaints ==> Step(f, pair).value.taints == f.taints
  {
  }

  /** Of several labels segments, the last one decides the labels. */
  lemma {:induction false} LastLabelsWin(pairs: seq<string>, j: nat)
    requires Collect(pairs).Ok?
    requires j < |pairs| && RouteOf(pairs[j]) == ToLabels && NoLaterRoute(pairs, j, ToLabels)
    ensures LabelsOf(pairs[j]).Ok?
    ensures Collect(pairs).value.groups.Keys == {"labels"}
    ensures Collect(pairs).value.groups["labels"] == LabelsOf(pairs[j]).value
    decreases |pairs|
  {
    var init := pairs[..|pairs| - 1];
    assert Collect(init).Ok?;
    GroupsOnlyLabels(init);
    if j < |pairs| - 1 {
      assert init[j] == pairs[j];
      assert NoLaterRoute(init, j, ToLabels) by {
        forall i | 0 <= i < |init| && j < i ensures RouteOf(init[i]) != ToLabels {
          assert init[i] == pairs[i];
        }
      }
      LastLabelsWin(init, j);
      StepKeepsGroups(Collect(init).value, pairs[|pairs| - 1]);
    }
  }

  /** The group map only ever has the key `labels`. */
  lemma {:induction false} GroupsOnlyLabels(pairs: seq<string>)
    requires Collect(pairs).Ok?
    ensures Collect(pairs).value.groups.Keys <= {"labels"}
    decreases |pairs|
  {
    if |pairs| > 0 {
      var init := pairs[..|pairs| - 1];
      assert Collect(init).Ok?;
      GroupsOnlyLabels(init);
    }
  }

  /** Without a labels segment the label map stays absent (a nil map in the record). */
  lemma {:induction false} UnsetLabelsDefault(pairs: seq<string>)
    requires Collect(pairs).Ok? && NoLaterRoute(pairs, -1, ToLabels)
    ensures "labels" !in Collect(pairs).value.groups
    decreases |pairs|
  {
    if |pairs| > 0 {
      var init := pairs[..|pairs| - 1];
      assert Collect(init).Ok?;
      assert NoLaterRoute(init, -1, ToLabels) by {
        forall i | 0 <= i < |init| ensures RouteOf(init[i]) != ToLabels {
          assert init[i] == pairs[i];
        }
      }
      UnsetLabelsDefault(init);
      StepKeepsGroups(Collect(init).value, pairs[|pairs| - 1]);
    }
  }

  /** Of several taints segments, the last one decides the taints. */
  lemma {:induction false} LastTaintsWin(pairs: seq<string>, j: nat)
    requires Collect(pairs).Ok?
    requires j < |pairs| && RouteOf(pairs[j]) == ToTaints && NoLaterRoute(pairs, j, ToTaints)
    ensures TaintsOf(pairs[j]).Ok?
    ensures Collect(pairs).value.taints == TaintsOf(pairs[j]).value
    decreases |pairs|
  {
    var init := pairs[..|pairs| - 1];
    assert Collect(init).Ok?;
    if j < |pairs| - 1 {
      assert init[j] == pairs[j];
      assert NoLaterRoute(init, j, ToTaints) by {
        forall i | 0 <= i < |init| && j < i ensures RouteOf(init[i]) != ToTaints {
          assert init[i] == pairs[i];
        }
      }
      LastTaintsWin(init, j);
      StepKeepsGroups(Collect(init).value, pairs[|pairs| - 1]);
    }
  }

  /** Without a taints segment the taints stay empty. */
  lemma {:induction false} UnsetTaintsDefault(pairs: seq<string>)
    requires Collect(pairs).Ok? && NoLaterRoute(pairs, -1, ToTaints)
    ensures Collect(pairs).value.taints == []
    decreases |pairs|
  {
    if |pairs| > 0 {
      var init := pairs[..|pairs| - 1];
      assert Collect(init).Ok?;
      assert NoLaterRoute(init, -1, ToTaints) by {
        forall i | 0 <= i < |init| ensures RouteOf(init[i]) != ToTaints {
          assert init[i] == pairs[i];
        }
      }
      UnsetTaintsDefault(init);
      StepKeepsGroups(Collect(init).value, pairs[|pairs| - 1]);
    }
  }
}
