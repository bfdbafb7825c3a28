/**
 * Request bodies (payload.go): the generic payload that every body is turned
 * into, and MultipartPayload, whose values and files share one namespace of
 * form names.
 */
module Payload {
  import opened Common

  const FormUrlEncodedContentType: string := "application/x-www-form-urlencoded"
  const OctetStreamContentType: string := "application/octet-stream"

  /** The generic payload: a content type and the body bytes. */
  datatype Payload = Payload(contentType: string, data: seq<Byte>)

  /** `payloadFromRawData`: the bytes verbatim, as an octet stream. */
  function PayloadFromRawData(d: seq<Byte>): (p: Payload)
    ensures p.contentType == OctetStreamContentType
    ensures p.data == d
  {
    Payload(OctetStreamContentType, d)
  }

  /** `payloadFromValues`, given the URL encoding of the values: that text as
      the body, tagged as a form. */
  function PayloadFromValues(encoded: seq<Byte>): (p: Payload)
    ensures p.contentType == FormUrlEncodedContentType
    ensures p.data == encoded
  {
    Payload(FormUrlEncodedContentType, encoded)
  }

  /** A payload's content type tells which constructor made it: it is the
      raw-data payload of its own bytes iff it is tagged as an octet stream,
      the form payload of its own bytes iff it is tagged as a form, and
      never both. */
  lemma PayloadOrigin(p: Payload)
    ensures p == PayloadFromRawData(p.data) <==> p.contentType == OctetStreamContentType
    ensures p == PayloadFromValues(p.data) <==> p.contentType == FormUrlEncodedContentType
    ensures !(p == PayloadFromRawData(p.data) && p == PayloadFromValues(p.data))
  {
    assert OctetStreamContentType[12] != FormUrlEncodedContentType[12];
  }

  /** A file to send: the content its reader yields, and its file name. */
  datatype FormFile = FormFile(content: seq<Byte>, name: string)

  /** The error both Add and AddFile return for a name already in use. */
  datatype PayloadError = NameAlreadyUsed

  const NameAlreadyUsedMessage: string := "Name has already been used."

  /** The text `Error()` gives for an error. */
  function Message(e: PayloadError): string
  {
    match e
    case NameAlreadyUsed => NameAlreadyUsedMessage
  }

  class MultipartPayload {
    /** None stands for the nil map of a fresh payload. */
    var values: Option<map<string, string>>
    var files: Option<map<string, FormFile>>

    function Values(): map<string, string>
      reads this
    {
      if values.Some? then values.value else map[]
    }

    function Files(): map<string, FormFile>
      reads this
    {
      if files.Some? then files.value else map[]
    }

    /** No name is both a value and a file. */
    predicate Valid()
      reads this
    {
      Values().Keys !! Files().Keys
    }

    /** `&MultipartPayload{}`: both maps nil. */
    constructor ()
      ensures values == None && files == None
      ensures Valid()
    {
      values := None;
      files := None;
    }

    /** `hasName`: whether `name` is used by a value or by a file. */
    method HasName(name: string) returns (found: bool)
      ensures found <==> name in Values() || name in Files()
    {
      var keys := Values().Keys;
      while keys != {}
        invariant keys <= Values().Keys
        invariant name !in Values().Keys - keys
        decreases |keys|
      {
        var k :| k in keys;
        if k == name {
          return true;
        }
        keys := keys - {k};
      }
      keys := Files().Keys;
      while keys != {}
        invariant keys <= Files().Keys
        invariant name !in Values() && name !in Files().Keys - keys
        decreases |keys|
      {
        var k :| k in keys;
        if k == name {
          return true;
        }
        keys := keys - {k};
      }
      return false;
    }

    /** `Add(name, value)`: the value map is created if it is nil; then the
        call fails when the name is taken, and otherwise stores the value. */
    method Add(name: string, value: string) returns (err: Option<PayloadError>)
      modifies this
      ensures values.Some? && files == old(files)
      ensures err.Some? <==> name in old(Values()) || name in old(Files())
      ensures err.Some? ==> err.value == NameAlreadyUsed && Message(err.value) == NameAlreadyUsedMessage && Values() == old(Values())
      ensures err.None? ==> Values() == old(Values())[name := value]
      ensures old(Valid()) ==> Valid()
    {
      if values.None? {
        values := Some(map[]);
      }
      var used := HasName(name);
      if used {
        return Some(NameAlreadyUsed);
      }
      values := Some(values.value[name := value]);
      return None;
    }

    /** `AddFile(name, f)`: as Add, for the file map. */
    method AddFile(name: string, f: FormFile) returns (err: Option<PayloadError>)
      modifies this
      ensures files.Some? && values == old(values)
      ensures err.Some? <==> name in old(Values()) || name in old(Files())
      ensures err.Some? ==> err.value == NameAlreadyUsed && Message(err.value) == NameAlreadyUsedMessage && Files() == old(Files())
      ensures err.None? ==> Files() == old(Files())[name := f]
      ensures old(Valid()) ==> Valid()
    {
      if files.None? {
        files := Some(map[]);
      }
      var used := HasName(name);
      if used {
        return Some(NameAlreadyUsed);
      }
      files := Some(files.value[name := f]);
      return None;
    }
  }

  /** TestMultipartDublets, and the shared namespace: a name is accepted once,
      refused a second time, and refused as a file once it is a value. */
  method DubletsScenario(f: FormFile) returns (e1: Option<PayloadError>, e2: Option<PayloadError>,
                                               e3: Option<PayloadError>, e4: Option<PayloadError>,
                                               e5: Option<PayloadError>)
    ensures e1 == None && e2 == Some(NameAlreadyUsed)
    ensures e3 == None && e4 == Some(NameAlreadyUsed)
    ensures e5 == Some(NameAlreadyUsed)
  {
    var m := new MultipartPayload();
    e1 := m.Add("name", "value");
    e2 := m.Add("name", "value");
    e3 := m.AddFile("test_file", f);
    e4 := m.AddFile("test_file", f);
    e5 := m.AddFile("name", f);
  }
}
