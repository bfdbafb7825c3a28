/**
 * Request body verification (verify.go): the body must decode as a JSON
 * object that has a key for every field of the target struct, except fields
 * tagged `walgo:"skip"`. A field's key is the name in its json tag (the text
 * before the first comma) or its Go field name.
 */
module Verify {
  import opened Common

  const SkipValue: string := "skip"

  /** A struct field as reflection describes it: its Go name and the values
      of its `json` and `walgo` tags ("" when a tag is absent). */
  datatype Field = Field(name: string, jsonTag: string, walgoTag: string)

  /** The value to verify into: a struct with its fields in declaration
      order, or a value of another kind (named as reflection names the kind
      of the value passed in). */
  datatype Target = Struct(fields: seq<Field>) | NonStruct(kind: string)

  datatype VerifyError =
    | DecodeError
    | FieldNotFound(fieldName: string)
    | BindError
    | NotAStruct(kindName: string)

  /** What `verifyData` returns: `(ok, err)`. */
  datatype Verdict = Verdict(ok: bool, err: Option<VerifyError>)

  /** `strings.Split(tag, ",")[0]`: the text before the first comma, or the
      whole tag when it has none. */
  function JsonName(tag: string): (r: string)
    ensures r <= tag
    ensures ',' !in r
    ensures |r| < |tag| ==> tag[|r|] == ','
  {
    if |tag| == 0 || tag[0] == ',' then "" else [tag[0]] + JsonName(tag[1..])
  }

  /** `fieldNamePresent`: the Go field name is a key of the object. */
  predicate FieldNamePresent(f: Field, keys: set<string>)
  {
    f.name in keys
  }

  /** `fieldJsonTagPresent`: the json tag is not empty and its name part is a
      key of the object. */
  predicate FieldJsonTagPresent(f: Field, keys: set<string>)
  {
    f.jsonTag != "" && JsonName(f.jsonTag) in keys
  }

  /** `skipFieldTagPresent`: the walgo tag is exactly "skip". */
  predicate SkipFieldTagPresent(f: Field)
  {
    f.walgoTag == SkipValue
  }

  /** A field passes the check of the loop in `verifyData`. */
  predicate Passes(f: Field, keys: set<string>)
  {
    SkipFieldTagPresent(f) || FieldJsonTagPresent(f, keys) || FieldNamePresent(f, keys)
  }

  /** Every field passes. */
  predicate AllPass(fields: seq<Field>, keys: set<string>)
  {
    forall j :: 0 <= j < |fields| ==> Passes(fields[j], keys)
  }

  /** Index of the first field that does not pass, or `|fields|`. */
  function FirstMissing(fields: seq<Field>, keys: set<string>): (i: nat)
    ensures i <= |fields|
    ensures forall j :: 0 <= j < i ==> Passes(fields[j], keys)
    ensures i < |fields| ==> !Passes(fields[i], keys)
  {
    if |fields| == 0 || !Passes(fields[0], keys) then 0
    else 1 + FirstMissing(fields[1..], keys)
  }

  /** The result `verifyData` computes for a target, the top-level keys of
      the decoded object (None when the first unmarshal, into a map, fails)
      and whether binding the body into the target succeeds. */
  function Check(target: Target, decoded: Option<set<string>>, bindOk: bool): Verdict
  {
    match target
    case NonStruct(kind) => Verdict(false, Some(NotAStruct(kind)))
    case Struct(fields) =>
      match decoded
      case None => Verdict(false, Some(DecodeError))
      case Some(keys) =>
        var i := FirstMissing(fields, keys);
        if i < |fields| then Verdict(false, Some(FieldNotFound(fields[i].name)))
        else if !bindOk then Verdict(false, Some(BindError))
        else Verdict(true, None)
  }

  /** `verifyData`: walk the fields in declaration order and stop at the
      first one that is missing. */
  method VerifyData(target: Target, decoded: Option<set<string>>, bindOk: bool) returns (ok: bool, err: Option<VerifyError>)
    ensures Verdict(ok, err) == Check(target, decoded, bindOk)
  {
    if target.Struct? {
      if decoded.None? {
        return false, Some(DecodeError);
      }
      var keys := decoded.value;
      var fields := target.fields;
      for i := 0 to |fields|
        invariant forall j :: 0 <= j < i ==> Passes(fields[j], keys)
      {
        var f := fields[i];
        if !SkipFieldTagPresent(f) && (!FieldJsonTagPresent(f, keys) && !FieldNamePresent(f, keys)) {
          FirstMissingIsFirst(fields, keys, i);
          return false, Some(FieldNotFound(f.name));
        }
      }
      FirstMissingIsFirst(fields, keys, |fields|);
      if !bindOk {
        return false, Some(BindError);
      }
      return true, None;
    }
    return false, Some(NotAStruct(target.kind));
  }

  /** The index of the first failing field is determined by the fields before
      it passing and itself failing. */
  lemma FirstMissingIsFirst(fields: seq<Field>, keys: set<string>, i: nat)
    requires i <= |fields|
    requires forall j :: 0 <= j < i ==> Passes(fields[j], keys)
    requires i < |fields| ==> !Passes(fields[i], keys)
    ensures FirstMissing(fields, keys) == i
  {
  }

  /** Verification succeeds exactly for a struct whose every field passes,
      with a body that decodes as an object and binds. */
  lemma CheckOkIff(target: Target, decoded: Option<set<string>>, bindOk: bool)
    ensures Check(target, decoded, bindOk).ok <==>
      target.Struct? && decoded.Some? && AllPass(target.fields, decoded.value) && bindOk
    ensures Check(target, decoded, bindOk).ok <==> Check(target, decoded, bindOk).err.None?
  {
    if target.Struct? && decoded.Some? {
      var i := FirstMissing(target.fields, decoded.value);
      if i < |target.fields| {
        assert !Passes(target.fields[i], decoded.value);
      }
    }
  }

  /** When some field is missing, the error names the first missing field in
      declaration order. */
  lemma FirstMissingReported(fields: seq<Field>, keys: set<string>, bindOk: bool, i: nat)
    requires i < |fields| && !Passes(fields[i], keys)
    requires forall j :: 0 <= j < i ==> Passes(fields[j], keys)
    ensures Check(Struct(fields), Some(keys), bindOk) == Verdict(false, Some(FieldNotFound(fields[i].name)))
  {
    FirstMissingIsFirst(fields, keys, i);
  }

  /** Inserting a field tagged `walgo:"skip"` moves the first failing field
      one place to the right when it lies after the insertion point. */
  lemma {:induction false} SkipFieldShift(before: seq<Field>, skipped: Field, after: seq<Field>, keys: set<string>)
    requires SkipFieldTagPresent(skipped)
    ensures var i := FirstMissing(before + after, keys);
      FirstMissing(before + [skipped] + after, keys) == if i < |before| then i else i + 1
    decreases |before|
  {
    var s := before + [skipped] + after;
    var u := before + after;
    if |before| == 0 {
      assert s[0] == skipped && s[1..] == after && u == after;
      assert FirstMissing(s, keys) == 1 + FirstMissing(after, keys);
    } else {
      assert s[0] == before[0] == u[0];
      assert s[1..] == before[1..] + [skipped] + after;
      assert u[1..] == before[1..] + after;
      if Passes(before[0], keys) {
        SkipFieldShift(before[1..], skipped, after, keys);
        assert FirstMissing(s, keys) == 1 + FirstMissing(s[1..], keys);
        assert FirstMissing(u, keys) == 1 + FirstMissing(u[1..], keys);
      } else {
        assert FirstMissing(s, keys) == 0 && FirstMissing(u, keys) == 0;
      }
    }
  }

  /** A field tagged `walgo:"skip"` never causes a failure: inserting one
      anywhere among the fields changes no result. */
  lemma SkipFieldIgnored(before: seq<Field>, skipped: Field, after: seq<Field>, keys: set<string>)
    requires SkipFieldTagPresent(skipped)
    ensures var i := FirstMissing(before + after, keys);
      var k := FirstMissing(before + [skipped] + after, keys);
      && (i < |before + after| <==> k < |before + [skipped] + after|)
      && (i < |before + after| ==> (before + [skipped] + after)[k] == (before + after)[i])
  {
    var s := before + [skipped] + after;
    var u := before + after;
    var i := FirstMissing(u, keys);
    SkipFieldShift(before, skipped, after, keys);
    if i < |before| {
      assert s[i] == before[i] == u[i];
    } else if i < |u| {
      assert s[i + 1] == after[i - |before|] == u[i];
    }
  }

  /** The same at the level of the verdict. */
  lemma SkipFieldVerdict(before: seq<Field>, skipped: Field, after: seq<Field>, decoded: Option<set<string>>, bindOk: bool)
    requires SkipFieldTagPresent(skipped)
    ensures Check(Struct(before + [skipped] + after), decoded, bindOk) == Check(Struct(before + after), decoded, bindOk)
  {
    if decoded.Some? {
      SkipFieldIgnored(before, skipped, after, decoded.value);
    }
  }

  /** A json tag counts only through its name part: with options after a
      comma the field is present iff that name is a key; an empty tag never
      counts. */
  lemma JsonTagNamePart(f: Field, name: string, options: string, keys: set<string>)
    requires ',' !in name
    requires f.jsonTag == name + "," + options
    ensures FieldJsonTagPresent(f, keys) <==> name in keys
  {
    JsonNameOfSplit(name, options);
  }

  lemma {:induction false} JsonNameOfSplit(name: string, options: string)
    requires ',' !in name
    ensures JsonName(name + "," + options) == name
  {
    if |name| > 0 {
      assert (name + "," + options)[1..] == name[1..] + "," + options;
      JsonNameOfSplit(name[1..], options);
    } else {
      assert (name + "," + options)[0] == ',';
    }
  }

  /** A tag without a comma is its own name part. */
  lemma {:induction false} JsonNameNoComma(tag: string)
    requires ',' !in tag
    ensures JsonName(tag) == tag
  {
    if |tag| > 0 {
      JsonNameNoComma(tag[1..]);
    }
  }

  /** The decision of VerifyBody. */
  datatype BodyOutcome = CallNext | HttpError(status: int, message: string)

  /** `VerifyBody`: an unreadable body is a 500 carrying the read error; a
      body that does not verify is a 400 with an empty message; otherwise
      `next` is called and no status is written. */
  method VerifyBody(readError: Option<string>, target: Target, decoded: Option<set<string>>, bindOk: bool)
    returns (outcome: BodyOutcome)
    ensures readError.Some? ==> outcome == HttpError(500, readError.value)
    ensures readError.None? ==>
      outcome == if Check(target, decoded, bindOk).ok then CallNext else HttpError(400, "")
  {
    if readError.Some? {
      return HttpError(500, readError.value);
    }
    var valid, err := VerifyData(target, decoded, bindOk);
    if err.Some? || !valid {
      return HttpError(400, "");
    }
    return CallNext;
  }

  /** `next` is reached exactly when the body is read and verifies. */
  lemma CallNextIff(readError: Option<string>, target: Target, decoded: Option<set<string>>, bindOk: bool)
    ensures (readError.None? && Check(target, decoded, bindOk).ok) <==>
      (readError.None? && target.Struct? && decoded.Some? && AllPass(target.fields, decoded.value) && bindOk)
  {
    CheckOkIff(target, decoded, bindOk);
  }

  /** The test type `verificationType`: Foo untagged, Bar with json name
      "bar", NoFoo skipped. */
  const VerificationType: Target :=
    Struct([Field("Foo", "", ""), Field("Bar", "bar", ""), Field("NoFoo", "", "skip")])

  /** The verdicts behind TestVerifyBody and TestVerifyBodyFail: a body with
      keys "Foo" and "bar" verifies; one with neither fails at Foo. */
  lemma VerificationTypeVerdicts()
    ensures Check(VerificationType, Some({"Foo", "bar"}), true) == Verdict(true, None)
    ensures Check(VerificationType, Some({"NotFoo", "NotBar"}), true) == Verdict(false, Some(FieldNotFound("Foo")))
  {
    VerificationTypePasses();
    var bad: set<string> := {"NotFoo", "NotBar"};
    assert !Passes(VerificationType.fields[0], bad);
    FirstMissingIsFirst(VerificationType.fields, bad, 0);
  }

  lemma VerificationTypePasses()
    ensures AllPass(VerificationType.fields, {"Foo", "bar"})
  {
    var fields := VerificationType.fields;
    var good: set<string> := {"Foo", "bar"};
    JsonNameNoComma("bar");
    assert FieldNamePresent(fields[0], good);
    assert FieldJsonTagPresent(fields[1], good);
    assert SkipFieldTagPresent(fields[2]);
  }

  /** TestVerifyBody, TestVerifyBodyFail and TestVerifyBodyInvalidType. */
  method VerifyScenarios() returns (pass: BodyOutcome, fail: BodyOutcome, invalid: BodyOutcome)
    ensures pass == CallNext
    ensures fail == HttpError(400, "")
    ensures invalid == HttpError(400, "")
  {
    VerificationTypeVerdicts();
    CheckOkIff(VerificationType, Some({"Foo", "bar"}), true);
    pass := VerifyBody(None, VerificationType, Some({"Foo", "bar"}), true);
    fail := VerifyBody(None, VerificationType, Some({"NotFoo", "NotBar"}), true);
    invalid := VerifyBody(None, NonStruct("ptr"), Some({}), true);
  }
}
