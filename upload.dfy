/** Task upload (upload/upload.go): the spec-version header and the multipart
    file counts are checked, the task entity is registered, the pre-state and
    the blocks are copied to the bucket in order, and a transition message is
    published unless a block copy failed. */
module Upload {
  import opened Wrappers
  import opened Formats
  import opened Decimal

  const MaxSpecVersionBytes: nat := 10
  const MaxBlocks: nat := 16

  /** Bytes of one character in UTF-8. */
  function RuneLen(c: char): nat {
    if c as int < 0x80 then 1 else if c as int < 0x800 then 2 else if c as int < 0x1_0000 then 3 else 4
  }

  /** Go's len() of a string: its UTF-8 byte count. */
  function Utf8Len(s: string): (n: nat)
    ensures n >= |s|
  {
    if s == [] then 0 else RuneLen(s[0]) + Utf8Len(s[1..])
  }

  datatype UploadError =
    | MissingSpecVersion
    | SpecVersionTooLong
    | InvalidSpecVersion
    | BadMultipart
    | NoBlocks
    | NoPreState
    | NotOnePreState
    | RegisterFailed

  /** upload/upload.go:95-107, in order. */
  function CheckSpecVersion(v: string): Option<UploadError> {
    if v == "" then Some(MissingSpecVersion)
    else if Utf8Len(v) > MaxSpecVersionBytes then Some(SpecVersionTooLong)
    else if !Accepts(UploadVersionRegex, v) then Some(InvalidSpecVersion)
    else None
  }

  /** The multipart form as the number of files under each field name. */
  type Form = map<string, nat>

  /** More than sixteen blocks are reported (upload/upload.go:121-123) but not refused. */
  predicate TooManyBlocks(form: Form) {
    "blocks" in form && form["blocks"] > MaxBlocks
  }

  /** upload/upload.go:118-130: the number of blocks, or why the form is refused. */
  function CheckForm(form: Form): (r: Result<nat, UploadError>)
    ensures r.Ok? <==> "blocks" in form && "pre" in form && form["pre"] == 1
    ensures r.Ok? ==> r.value == form["blocks"]
    ensures "blocks" !in form ==> r == Err(NoBlocks)
    ensures "blocks" in form && "pre" !in form ==> r == Err(NoPreState)
    ensures "blocks" in form && "pre" in form && form["pre"] != 1 ==> r == Err(NotOnePreState)
  {
    if "blocks" !in form then Err(NoBlocks)
    else if "pre" !in form then Err(NoPreState)
    else if form["pre"] != 1 then Err(NotOnePreState)
    else Ok(form["blocks"])
  }

  function Dir(specVersion: string, key: string): string {
    specVersion + "/" + key + "/"
  }

  /** Object name of the pre-state: `<version>/<key>/pre.ssz`. */
  function PrePath(specVersion: string, key: string): string {
    Dir(specVersion, key) + "pre.ssz"
  }

  /** Object name of block i: `<version>/<key>/block_<i>.ssz`. */
  function BlockPath(specVersion: string, key: string, i: nat): string {
    Dir(specVersion, key) + "block_" + Show(i) + ".ssz"
  }

  /** Distinct blocks go to distinct objects, none of them the pre-state's. */
  lemma PathsDistinct(specVersion: string, key: string, i: nat, j: nat)
    ensures BlockPath(specVersion, key, i) == BlockPath(specVersion, key, j) ==> i == j
    ensures BlockPath(specVersion, key, i) != PrePath(specVersion, key)
  {
    var d := Dir(specVersion, key);
    var p := d + "block_";
    var bi, bj := BlockPath(specVersion, key, i), BlockPath(specVersion, key, j);
    assert bi == p + (Show(i) + ".ssz");
    assert bj == p + (Show(j) + ".ssz");
    if bi == bj {
      assert |Show(i)| == |Show(j)|;
      assert Show(i) == bi[|p|..|p| + |Show(i)|];
      assert Show(j) == bj[|p|..|p| + |Show(j)|];
      ShowInjective(i, j);
    }
    assert bi[|d|] == 'b';
    assert PrePath(specVersion, key)[|d|] == 'p';
  }

  /** upload/upload.go:151-169: copy the pre-state, then the blocks in order, stopping at
      the first block that fails. `failing` names the objects whose copy
      fails. A failed pre-state copy sets the flag to false, as written. */
  method StoreInputs(specVersion: string, key: string, blocks: nat, failing: set<string>)
    returns (failedUpload: bool, attempted: seq<string>)
    ensures |attempted| >= 1 && attempted[0] == PrePath(specVersion, key)
    ensures forall j :: 1 <= j < |attempted| ==> attempted[j] == BlockPath(specVersion, key, j - 1)
    ensures failedUpload <==> exists i :: 0 <= i < blocks && BlockPath(specVersion, key, i) in failing
    ensures failedUpload ==> |attempted| >= 2 && attempted[|attempted| - 1] in failing
    ensures forall j :: 1 <= j < |attempted| - 1 ==> attempted[j] !in failing
    ensures !failedUpload ==> |attempted| == blocks + 1
  {
    failedUpload := false;
    var prePath := PrePath(specVersion, key);
    attempted := [prePath];
    if prePath in failing {
      failedUpload := false;
    }
    if !failedUpload {
      var i := 0;
      while i < blocks
        invariant 0 <= i <= blocks
        invariant |attempted| == i + 1 && attempted[0] == prePath
        invariant forall j :: 1 <= j < |attempted| ==> attempted[j] == BlockPath(specVersion, key, j - 1)
        invariant forall j :: 0 <= j < i ==> BlockPath(specVersion, key, j) !in failing
        invariant !failedUpload
      {
        var path := BlockPath(specVersion, key, i);
        attempted := attempted + [path];
        if path in failing {
          failedUpload := true;
          break;
        }
        i := i + 1;
      }
    }
  }

  /** The datastore entity registered for the task (upload/upload.go:135-139). */
  datatype TaskEntity = TaskEntity(blocks: nat, specVersion: string, created: int)

  /** The pub/sub message announcing the task (upload/upload.go:173-177). */
  datatype TransitionMsg = TransitionMsg(blocks: nat, specVersion: string, key: string)

  datatype UploadOutcome =
    | Rejected(error: UploadError, tooManyBlocksReported: bool)
    | Registered(entity: TaskEntity, key: string, tooManyBlocksReported: bool,
                 attempted: seq<string>, published: Option<TransitionMsg>)

  /** The handler. `form` is None when the multipart body cannot be parsed;
      `registered` is the encoded datastore key, None when the put fails. */
  method Upload(specVersion: string, form: Option<Form>, registered: Option<string>,
                failing: set<string>, now: int) returns (out: UploadOutcome)
    ensures CheckSpecVersion(specVersion).Some? ==> out == Rejected(CheckSpecVersion(specVersion).value, false)
    ensures CheckSpecVersion(specVersion).None? && form.None? ==> out == Rejected(BadMultipart, false)
    ensures CheckSpecVersion(specVersion).None? && form.Some? && CheckForm(form.value).Err? ==>
              out == Rejected(CheckForm(form.value).error, TooManyBlocks(form.value))
    ensures CheckSpecVersion(specVersion).None? && form.Some? && CheckForm(form.value).Ok? && registered.None? ==>
              out == Rejected(RegisterFailed, TooManyBlocks(form.value))
    ensures CheckSpecVersion(specVersion).None? && form.Some? && CheckForm(form.value).Ok? && registered.Some? ==>
              out.Registered?
    ensures out.Registered? ==>
              && CheckSpecVersion(specVersion).None? && form.Some? && CheckForm(form.value).Ok?
              && registered == Some(out.key)
              && out.tooManyBlocksReported == TooManyBlocks(form.value)
              && out.entity == TaskEntity(form.value["blocks"], specVersion, now)
              && |out.attempted| >= 1 && out.attempted[0] == PrePath(specVersion, out.key)
              && (forall j :: 1 <= j < |out.attempted| ==> out.attempted[j] == BlockPath(specVersion, out.key, j - 1))
              && (out.published.Some? <==> forall i :: 0 <= i < form.value["blocks"] ==> BlockPath(specVersion, out.key, i) !in failing)
              && (out.published.Some? ==> out.published.value == TransitionMsg(form.value["blocks"], specVersion, out.key))
              && (out.published.Some? ==> |out.attempted| == form.value["blocks"] + 1)
              && (out.published.None? ==> |out.attempted| >= 2 && out.attempted[|out.attempted| - 1] in failing)
              && (forall j :: 1 <= j < |out.attempted| - 1 ==> out.attempted[j] !in failing)
  {
    var versionErr := CheckSpecVersion(specVersion);
    if versionErr.Some? {
      return Rejected(versionErr.value, false);
    }
    if form.None? {
      return Rejected(BadMultipart, false);
    }
    var files := form.value;
    var reported := TooManyBlocks(files);
    var blocks := CheckForm(files);
    if blocks.Err? {
      return Rejected(blocks.error, reported);
    }
    var entity := TaskEntity(blocks.value, specVersion, now);
    if registered.None? {
      return Rejected(RegisterFailed, reported);
    }
    var keyStr := registered.value;
    var failedUpload, attempted := StoreInputs(specVersion, keyStr, blocks.value, failing);
    var published := None;
    if !failedUpload {
      published := Some(TransitionMsg(blocks.value, specVersion, keyStr));
    }
    out := Registered(entity, keyStr, reported, attempted, published);
  }

  // ---- properties of the checks

  /** The header passes iff it is non-empty, at most 10 bytes, and holds at least
      one of `a-zA-Z0-9.-` somewhere, since the pattern is not anchored. */
  lemma SpecVersionAccepted(v: string)
    ensures CheckSpecVersion(v).None? <==>
              v != "" && Utf8Len(v) <= MaxSpecVersionBytes
              && exists i :: 0 <= i < |v| && IsUploadVersionChar(v[i])
  {
    UploadVersionRegexShape(v);
  }

  /** Strings the version pattern elsewhere refuses still pass this check. */
  lemma UnanchoredVersionExample()
    ensures CheckSpecVersion("?v1").None? && !Accepts(VersionRegex, "?v1")
    ensures CheckSpecVersion("??") == Some(InvalidSpecVersion)
    ensures CheckSpecVersion("v1.2.3-rc.1") == Some(SpecVersionTooLong)
  {
    SpecVersionAccepted("?v1");
    assert "?v1"[1] == 'v';
    VersionRegexShape("?v1");
    SpecVersionAccepted("??");
  }

  /** A form with blocks and one pre-state passes whatever the block count;
      more than sixteen blocks is only reported. */
  lemma TooManyBlocksStillAccepted(n: nat)
    requires n > MaxBlocks
    ensures var form := map["blocks" := n, "pre" := 1];
      CheckForm(form) == Ok(n) && TooManyBlocks(form)
  {
  }

  /** A pre-state copy that fails does not stop the blocks or the publication. */
  lemma PreStateFailureIgnored(specVersion: string, key: string, blocks: nat)
    ensures var fail := {PrePath(specVersion, key)};
      forall i :: 0 <= i < blocks ==> BlockPath(specVersion, key, i) !in fail
  {
    forall i | 0 <= i < blocks ensures BlockPath(specVersion, key, i) != PrePath(specVersion, key) {
      PathsDistinct(specVersion, key, i, i);
    }
  }
}
