/**
 The command frames between gateway and agent (proto/rmm/v1/agent.proto:92-135), the specs they
 carry (server/internal/gateway/gateway.go:291-345, agent/internal/exec/exec.go:23-61) and the
 way a run's outcome becomes a reported status (agent/internal/exec/exec.go:66-187,
 agent/internal/conn/conn.go:368-398).

 JSON text is represented by the value it denotes: `Scalar` stands for any number or boolean,
 `Malformed` for bytes that are no JSON.  Times are instants on one clock.
 */
module Commands {
  import opened Wrappers
  import opened JsonNames

  /** A job's command id is a fresh UUID; an inventory refresh uses "invrefresh-" and a UUID. */
  datatype CommandId = Command(n: nat) | Refresh(n: nat)

  datatype CommandKind = UnspecifiedKind | Script | PackageInstall | PackageRemove | InventoryRefresh | SelfUninstall

  datatype CommandStatus = StatusUnspecified | StatusSucceeded | StatusFailed | StatusTimeout | StatusExpired

  datatype Json = Null | Str(text: string) | Arr(items: seq<Json>) | Obj(fields: seq<Field>) | Scalar | Malformed

  /** One member of an object, in the order of the text. */
  datatype Field = Field(key: string, value: Json)

  // ---------------------------------------------------------------------
  // Specs

  datatype ScriptSpec = ScriptSpec(language: string, body: string, parameters: map<string, string>)

  /** What a job row holds of the work to do: a script snapshot or a package spec. */
  datatype Work =
    | ScriptWork(language: string, body: string, params: Json)
    | PackageWork(install: bool, spec: Json)

  datatype SpecError = BadSpec

  /** encoding/json into a Go string: a null leaves what is there. */
  predicate IsText(j: Json) {
    j.Str? || j.Null?
  }

  function TextOf(j: Json): string {
    if j.Str? then j.text else ""
  }

  predicate AllTexts(fields: seq<Field>) {
    forall k :: 0 <= k < |fields| ==> IsText(fields[k].value)
  }

  function AsMap(fields: seq<Field>): map<string, string> {
    if fields == [] then map[]
    else AsMap(fields[..|fields| - 1])[fields[|fields| - 1].key := TextOf(fields[|fields| - 1].value)]
  }

  /** encoding/json into an empty map[string]string. */
  function Texts(j: Json): Result<map<string, string>, SpecError> {
    if j.Null? then Ok(map[])
    else if j.Obj? && AllTexts(j.fields) then Ok(AsMap(j.fields))
    else Err(BadSpec)
  }

  /** The string field `name`: every member whose key matches is decoded into it in turn. */
  function ReadText(fields: seq<Field>, name: string): Result<string, SpecError> {
    if fields == [] then Ok("")
    else
      var before, f := ReadText(fields[..|fields| - 1], name), fields[|fields| - 1];
      if before.Err? || !Matches(f.key, name) then before
      else if !IsText(f.value) then Err(BadSpec)
      else if f.value.Str? then Ok(f.value.text) else before
  }

  /** The map field `name`; a second object adds to the first. */
  function ReadMap(fields: seq<Field>, name: string): Result<map<string, string>, SpecError> {
    if fields == [] then Ok(map[])
    else
      var before, f := ReadMap(fields[..|fields| - 1], name), fields[|fields| - 1];
      if before.Err? || !Matches(f.key, name) then before
      else if f.value.Null? then Ok(map[])
      else if f.value.Obj? && AllTexts(f.value.fields) then Ok(before.value + AsMap(f.value.fields))
      else Err(BadSpec)
  }

  function TextList(items: seq<Json>): Result<seq<string>, SpecError> {
    if forall k :: 0 <= k < |items| ==> IsText(items[k]) then
      Ok(seq(|items|, k requires 0 <= k < |items| => TextOf(items[k])))
    else Err(BadSpec)
  }

  /** The list field `name`; a second list replaces the first. */
  function ReadList(fields: seq<Field>, name: string): Result<seq<string>, SpecError> {
    if fields == [] then Ok([])
    else
      var before, f := ReadList(fields[..|fields| - 1], name), fields[|fields| - 1];
      if before.Err? || !Matches(f.key, name) then before
      else if f.value.Null? then Ok([])
      else if f.value.Arr? then TextList(f.value.items)
      else Err(BadSpec)
  }

  /** The stored parameters as string members; what a null or an absent object holds is nothing. */
  function ParamFields(params: Json): seq<Field> {
    if params.Obj? then
      seq(|params.fields|, k requires 0 <= k < |params.fields| => Field(params.fields[k].key, Str(TextOf(params.fields[k].value))))
    else []
  }

  /** buildScriptSpec: fails when the stored parameters are not a flat object of strings. */
  function BuildScriptSpec(language: string, body: string, params: Json): Result<Json, SpecError> {
    if Texts(params).Err? then Err(BadSpec)
    else Ok(Obj([Field("language", Str(language)), Field("body", Str(body)), Field("parameters", Obj(ParamFields(params)))]))
  }

  /** ParseSpec: unknown keys are ignored, missing ones and a null payload leave zero values. */
  function ParseSpec(payload: Json): Result<ScriptSpec, SpecError> {
    if payload.Null? then Ok(ScriptSpec("", "", map[]))
    else if !payload.Obj? then Err(BadSpec)
    else
      var language := ReadText(payload.fields, "language");
      var body := ReadText(payload.fields, "body");
      var parameters := ReadMap(payload.fields, "parameters");
      if language.Ok? && body.Ok? && parameters.Ok? then
        Ok(ScriptSpec(language.value, body.value, parameters.value))
      else Err(BadSpec)
  }

  /** ParsePackageSpec. */
  function ParsePackageSpec(payload: Json): Result<seq<string>, SpecError> {
    if payload.Null? then Ok([])
    else if !payload.Obj? then Err(BadSpec)
    else ReadList(payload.fields, "packages")
  }

  /** json.Marshal of store.PackageSpecJSON. */
  function EncodePackages(packages: seq<string>): Json {
    Obj([Field("packages", Arr(seq(|packages|, k requires 0 <= k < |packages| => Str(packages[k]))))])
  }

  /** What the gateway sends for a job: its kind and spec bytes. */
  function CommandFor(w: Work): Result<(CommandKind, Json), SpecError> {
    match w
    case PackageWork(install, spec) => Ok((if install then PackageInstall else PackageRemove, spec))
    case ScriptWork(language, body, params) =>
      match BuildScriptSpec(language, body, params)
      case Ok(spec) => Ok((Script, spec))
      case Err(e) => Err(e)
  }

  lemma {:induction false} ParamsKeepTheirMeaning(fields: seq<Field>)
    requires AllTexts(fields)
    ensures AllTexts(ParamFields(Obj(fields))) && AsMap(ParamFields(Obj(fields))) == AsMap(fields)
  {
    if fields != [] {
      var before := fields[..|fields| - 1];
      ParamsKeepTheirMeaning(before);
      assert ParamFields(Obj(fields))[..|fields| - 1] == ParamFields(Obj(before));
    }
  }

  /** The three members the gateway writes are told apart by their length alone. */
  lemma ReadThree(l: Json, b: Json, p: Json)
    requires l.Str? && b.Str? && p.Obj? && AllTexts(p.fields)
    ensures var fs := [Field("language", l), Field("body", b), Field("parameters", p)];
      ReadText(fs, "language") == Ok(l.text) && ReadText(fs, "body") == Ok(b.text) && ReadMap(fs, "parameters") == Ok(AsMap(p.fields))
  {
    var fs := [Field("language", l), Field("body", b), Field("parameters", p)];
    var two := fs[..2];
    var one := two[..1];
    assert fs[..|fs| - 1] == two && two[..|two| - 1] == one && one[..|one| - 1] == [];
    assert |Fold("language")| == 8 && |Fold("body")| == 4 && |Fold("parameters")| == 10;
    assert ReadText(one, "language") == Ok(l.text) && ReadText(two, "language") == Ok(l.text);
    assert ReadText(one, "body") == Ok("") && ReadText(two, "body") == Ok(b.text);
    assert ReadMap(one, "parameters") == Ok(map[]) && ReadMap(two, "parameters") == Ok(map[]);
    assert map[] + AsMap(p.fields) == AsMap(p.fields);
  }

  /** The agent reads back exactly the script the gateway packed. */
  lemma ScriptSpecRoundTrip(language: string, body: string, params: Json)
    requires BuildScriptSpec(language, body, params).Ok?
    ensures ParseSpec(BuildScriptSpec(language, body, params).value)
         == Ok(ScriptSpec(language, body, Texts(params).value))
  {
    if params.Obj? {
      ParamsKeepTheirMeaning(params.fields);
    }
    ReadThree(Str(language), Str(body), Obj(ParamFields(params)));
  }

  lemma PackageSpecRoundTrip(packages: seq<string>)
    ensures ParsePackageSpec(EncodePackages(packages)) == Ok(packages)
  {
    var fs := EncodePackages(packages).fields;
    assert fs[..|fs| - 1] == [];
    assert ReadList(fs[..|fs| - 1], "packages") == Ok([]) && Matches(fs[0].key, "packages");
    assert TextList(fs[0].value.items).Ok? && TextList(fs[0].value.items).value == packages;
  }

  // ---------------------------------------------------------------------
  // What the decoder accepts and what it reads

  /** Member `n` is the last one decoded into the field `name` of those with property `p`. */
  ghost predicate LastInto(fields: seq<Field>, name: string, p: Json -> bool, n: int) {
    && 0 <= n < |fields| && Matches(fields[n].key, name) && p(fields[n].value)
    && forall m :: n < m < |fields| && Matches(fields[m].key, name) ==> !p(fields[m].value)
  }

  ghost predicate NoneInto(fields: seq<Field>, name: string, p: Json -> bool) {
    forall n :: 0 <= n < |fields| && Matches(fields[n].key, name) ==> !p(fields[n].value)
  }

  lemma LastIntoExtends(fields: seq<Field>, name: string, p: Json -> bool, n: int)
    requires fields != [] && n < |fields| - 1
    ensures LastInto(fields, name, p, n) <==>
              LastInto(fields[..|fields| - 1], name, p, n)
              && !(Matches(fields[|fields| - 1].key, name) && p(fields[|fields| - 1].value))
  {
    var before := fields[..|fields| - 1];
    assert forall m :: 0 <= m < |before| ==> before[m] == fields[m];
  }

  lemma NoneIntoExtends(fields: seq<Field>, name: string, p: Json -> bool)
    requires fields != []
    ensures NoneInto(fields, name, p) <==>
              NoneInto(fields[..|fields| - 1], name, p) && !(Matches(fields[|fields| - 1].key, name) && p(fields[|fields| - 1].value))
  {
    var before := fields[..|fields| - 1];
    assert forall n :: 0 <= n < |before| ==> before[n] == fields[n];
  }

  /** The text of the last string decoded into the field, or "" if none is. */
  ghost predicate IsLastText(fields: seq<Field>, name: string, text: string) {
    || (NoneInto(fields, name, (j: Json) => j.Str?) && text == "")
    || exists n :: LastInto(fields, name, (j: Json) => j.Str?, n) && text == fields[n].value.text
  }

  lemma LastTextExtends(fields: seq<Field>, name: string, text: string)
    requires fields != [] && !(Matches(fields[|fields| - 1].key, name) && fields[|fields| - 1].value.Str?)
    requires IsLastText(fields[..|fields| - 1], name, text)
    ensures IsLastText(fields, name, text)
  {
    var before := fields[..|fields| - 1];
    NoneIntoExtends(fields, name, (j: Json) => j.Str?);
    if n :| LastInto(before, name, (j: Json) => j.Str?, n) && text == before[n].value.text {
      LastIntoExtends(fields, name, (j: Json) => j.Str?, n);
    }
  }

  /** A text field: every matching member must be a string or null; the last string counts, and nothing is "". */
  lemma {:induction false} ReadTextIs(fields: seq<Field>, name: string)
    ensures ReadText(fields, name).Err? <==> !NoneInto(fields, name, (j: Json) => !j.Str? && j != Null)
    ensures ReadText(fields, name).Ok? ==> IsLastText(fields, name, ReadText(fields, name).value)
  {
    if fields != [] {
      var last := |fields| - 1;
      ReadTextIs(fields[..last], name);
      NoneIntoExtends(fields, name, (j: Json) => !j.Str? && j != Null);
      if ReadText(fields, name).Ok? {
        if Matches(fields[last].key, name) && fields[last].value.Str? {
          assert LastInto(fields, name, (j: Json) => j.Str?, last);
        } else {
          LastTextExtends(fields, name, ReadText(fields, name).value);
        }
      }
    }
  }

  /** A list of strings, null standing for the empty one. */
  ghost predicate IsTextList(j: Json) {
    j.Arr? && forall k :: 0 <= k < |j.items| ==> j.items[k].Str? || j.items[k] == Null
  }

  ghost predicate ListsTexts(j: Json, texts: seq<string>) {
    || (j == Null && texts == [])
    || (j.Arr? && |texts| == |j.items|
        && forall k :: 0 <= k < |texts| ==> j.items[k] == Str(texts[k]) || (j.items[k] == Null && texts[k] == ""))
  }

  /** The list of the last member decoded into the field, or [] if none is. */
  ghost predicate IsLastList(fields: seq<Field>, name: string, texts: seq<string>) {
    || (NoneInto(fields, name, (j: Json) => true) && texts == [])
    || exists n :: LastInto(fields, name, (j: Json) => true, n) && ListsTexts(fields[n].value, texts)
  }

  lemma LastListExtends(fields: seq<Field>, name: string, texts: seq<string>)
    requires fields != [] && !Matches(fields[|fields| - 1].key, name)
    requires IsLastList(fields[..|fields| - 1], name, texts)
    ensures IsLastList(fields, name, texts)
  {
    var before := fields[..|fields| - 1];
    NoneIntoExtends(fields, name, (j: Json) => true);
    if n :| LastInto(before, name, (j: Json) => true, n) && ListsTexts(before[n].value, texts) {
      LastIntoExtends(fields, name, (j: Json) => true, n);
    }
  }

  /** A list field: every matching member must be a list of strings or null; the last one counts, and none is []. */
  lemma {:induction false} ReadListIs(fields: seq<Field>, name: string)
    ensures ReadList(fields, name).Err? <==> !NoneInto(fields, name, j => j != Null && !IsTextList(j))
    ensures ReadList(fields, name).Ok? ==> IsLastList(fields, name, ReadList(fields, name).value)
  {
    if fields != [] {
      var last := |fields| - 1;
      ReadListIs(fields[..last], name);
      NoneIntoExtends(fields, name, j => j != Null && !IsTextList(j));
      if ReadList(fields, name).Ok? {
        if Matches(fields[last].key, name) {
          assert LastInto(fields, name, (j: Json) => true, last);
        } else {
          LastListExtends(fields, name, ReadList(fields, name).value);
        }
      }
    }
  }

  /** The package list the agent reads: none from null, an error from anything else that is no object. */
  lemma ParsePackagesIs(payload: Json)
    ensures payload == Null ==> ParsePackageSpec(payload) == Ok([])
    ensures payload != Null && !payload.Obj? ==> ParsePackageSpec(payload).Err?
    ensures payload.Obj? ==> ParsePackageSpec(payload) == ReadList(payload.fields, "packages")
  {
  }

  /** Entry `n` is the last member with this very key. */
  ghost predicate LastKeyed(fields: seq<Field>, key: string, n: int) {
    0 <= n < |fields| && fields[n].key == key && forall m :: n < m < |fields| ==> fields[m].key != key
  }

  ghost function TextAt(fields: seq<Field>, n: int): string
    requires 0 <= n < |fields|
  {
    if fields[n].value.Str? then fields[n].value.text else ""
  }

  /** An object decoded into a map of strings: of the members under one key the last counts, null as "". */
  lemma {:induction false} AsMapKeepsLast(fields: seq<Field>, key: string)
    ensures key in AsMap(fields) <==> exists n :: 0 <= n < |fields| && fields[n].key == key
    ensures key in AsMap(fields) ==> exists n :: LastKeyed(fields, key, n) && AsMap(fields)[key] == TextAt(fields, n)
  {
    if fields != [] {
      var last := |fields| - 1;
      var before := fields[..last];
      AsMapKeepsLast(before, key);
      if fields[last].key == key {
        assert LastKeyed(fields, key, last);
      } else if key in AsMap(before) {
        var n :| LastKeyed(before, key, n) && AsMap(before)[key] == TextAt(before, n);
        assert LastKeyed(fields, key, n);
      }
    }
  }

  /** An object all of whose values are strings or null. */
  ghost predicate IsTextMap(j: Json) {
    j.Obj? && forall k :: 0 <= k < |j.fields| ==> j.fields[k].value.Str? || j.fields[k].value == Null
  }

  /** Stored parameters are usable iff they are null or such an object, and then mean its members. */
  lemma TextsIs(j: Json)
    ensures Texts(j).Ok? <==> j == Null || IsTextMap(j)
    ensures j == Null ==> Texts(j) == Ok(map[])
    ensures IsTextMap(j) ==> Texts(j) == Ok(AsMap(j.fields))
  {
  }

  /** Member `n` is an object decoded into the field that has the key, and no null for the field follows it. */
  ghost predicate GivesKey(fields: seq<Field>, name: string, key: string, n: int) {
    && 0 <= n < |fields| && Matches(fields[n].key, name) && fields[n].value.Obj? && key in AsMap(fields[n].value.fields)
    && forall m :: n < m < |fields| && Matches(fields[m].key, name) ==> fields[m].value != Null
  }

  lemma GivesKeyExtends(fields: seq<Field>, name: string, key: string, n: int)
    requires fields != [] && n < |fields| - 1
    ensures GivesKey(fields, name, key, n) <==>
              GivesKey(fields[..|fields| - 1], name, key, n)
              && !(Matches(fields[|fields| - 1].key, name) && fields[|fields| - 1].value == Null)
  {
    var before := fields[..|fields| - 1];
    assert forall m :: 0 <= m < |before| ==> before[m] == fields[m];
  }

  /** The last of them decides the key's value. */
  ghost predicate DecidesKey(fields: seq<Field>, name: string, key: string, n: int, value: string) {
    && GivesKey(fields, name, key, n) && AsMap(fields[n].value.fields)[key] == value
    && forall m :: n < m < |fields| ==> !GivesKey(fields, name, key, m)
  }

  /** A map field: every matching member must be an object of strings or null; later objects add to earlier ones, a null clears. */
  lemma {:induction false} ReadMapIs(fields: seq<Field>, name: string, key: string)
    ensures ReadMap(fields, name).Err? <==> !NoneInto(fields, name, j => j != Null && !IsTextMap(j))
    ensures ReadMap(fields, name).Ok? ==>
      var m := ReadMap(fields, name).value;
      && (key in m <==> exists n :: GivesKey(fields, name, key, n))
      && (key in m ==> exists n :: DecidesKey(fields, name, key, n, m[key]))
  {
    var bad := (j: Json) => j != Null && !IsTextMap(j);
    if fields != [] {
      var last := |fields| - 1;
      var before := fields[..last];
      ReadMapIs(before, name, key);
      NoneIntoExtends(fields, name, bad);
      if ReadMap(fields, name).Ok? {
        ReadMapLast(fields, name, key);
      }
    }
  }

  lemma ReadMapLast(fields: seq<Field>, name: string, key: string)
    requires fields != [] && ReadMap(fields, name).Ok?
    requires var before := fields[..|fields| - 1]; ReadMap(before, name).Ok? ==>
      var m := ReadMap(before, name).value;
      && (key in m <==> exists n :: GivesKey(before, name, key, n))
      && (key in m ==> exists n :: DecidesKey(before, name, key, n, m[key]))
    ensures var m := ReadMap(fields, name).value;
      && (key in m <==> exists n :: GivesKey(fields, name, key, n))
      && (key in m ==> exists n :: DecidesKey(fields, name, key, n, m[key]))
  {
    var last := |fields| - 1;
    var before := fields[..last];
    forall n | n < last
      ensures GivesKey(fields, name, key, n) <==>
                GivesKey(before, name, key, n) && !(Matches(fields[last].key, name) && fields[last].value == Null)
    {
      GivesKeyExtends(fields, name, key, n);
    }
    var m := ReadMap(fields, name).value;
    if GivesKey(fields, name, key, last) {
      assert DecidesKey(fields, name, key, last, m[key]);
    } else if key in m {
      var n :| DecidesKey(before, name, key, n, ReadMap(before, name).value[key]);
      assert DecidesKey(fields, name, key, n, m[key]);
    }
  }

  /** The script the agent reads: zero values from null, an error from anything else that is no object. */
  lemma ParseSpecIs(payload: Json)
    ensures payload == Null ==> ParseSpec(payload) == Ok(ScriptSpec("", "", map[]))
    ensures payload != Null && !payload.Obj? ==> ParseSpec(payload).Err?
    ensures payload.Obj? ==>
      (ParseSpec(payload).Ok? <==>
        && ReadText(payload.fields, "language").Ok? && ReadText(payload.fields, "body").Ok? && ReadMap(payload.fields, "parameters").Ok?)
    ensures payload.Obj? && ParseSpec(payload).Ok? ==>
      ParseSpec(payload).value == ScriptSpec(ReadText(payload.fields, "language").value, ReadText(payload.fields, "body").value,
                                             ReadMap(payload.fields, "parameters").value)
  {
  }

  // ---------------------------------------------------------------------
  // Outcomes

  /** How os/exec reports a finished run: no error, a non-zero exit, or anything else. */
  datatype RunError = NoError | ExitError(code: int) | OtherError

  /** One run of a script or of the package manager. */
  datatype Outcome =
    | NotStarted  // no temporary file, an unsupported language, no package listed
    | Ran(err: RunError, deadline: bool)

  datatype ExecError = DeadlineExceeded | ExecFailure

  datatype ExecResult = ExecResult(exitCode: int, err: Option<ExecError>)

  function ScriptResult(o: Outcome): ExecResult {
    match o
    case NotStarted => ExecResult(0, Some(ExecFailure))
    case Ran(NoError, _) => ExecResult(0, None)
    case Ran(ExitError(code), _) => ExecResult(code, None)
    case Ran(OtherError, deadline) => ExecResult(0, Some(if deadline then DeadlineExceeded else ExecFailure))
  }

  function PackageResult(o: Outcome): ExecResult {
    match o
    case NotStarted => ExecResult(1, Some(ExecFailure))
    case Ran(NoError, _) => ExecResult(0, None)
    case Ran(err, deadline) =>
      if deadline then ExecResult(0, Some(DeadlineExceeded))
      else if err.ExitError? then ExecResult(err.code, None)
      else ExecResult(0, Some(ExecFailure))
  }

  function StatusFor(r: ExecResult): CommandStatus {
    if r.err == Some(DeadlineExceeded) then StatusTimeout
    else if r.err.Some? then StatusFailed
    else if r.exitCode == 0 then StatusSucceeded
    else StatusFailed
  }

  /** The run came to its end with exit code 0. */
  predicate EndedWithZero(o: Outcome) {
    o.Ran? && (o.err.NoError? || o.err == ExitError(0))
  }

  function ResultOf(kind: CommandKind, o: Outcome): ExecResult {
    if kind.Script? then ScriptResult(o) else PackageResult(o)
  }

  /**
   What each reported status says about the run: succeeded, and only then, for exit code 0, except
   that a package run past its deadline is a timeout whatever error came with it.  A script
   killed at its deadline has a non-zero exit, which its runner looks at first, so it is
   reported as failed; the same package run is reported as timed out.
   */
  lemma ReportedStatus(kind: CommandKind, o: Outcome)
    ensures var status := StatusFor(ResultOf(kind, o));
      && (status.StatusSucceeded? <==> EndedWithZero(o) && (kind.Script? || o.err.NoError? || !o.deadline))
      && (status.StatusTimeout? <==> o.Ran? && o.deadline && if kind.Script? then o.err.OtherError? else !o.err.NoError?)
      && (status.StatusFailed? <==> !status.StatusSucceeded? && !status.StatusTimeout?)
    ensures ResultOf(kind, o).exitCode ==
              if o.Ran? && o.err.ExitError? && (kind.Script? || !o.deadline) then o.err.code
              else if o.NotStarted? && !kind.Script? then 1
              else 0
  {
    match o {
      case NotStarted =>
      case Ran(err, deadline) =>
    }
  }
}
