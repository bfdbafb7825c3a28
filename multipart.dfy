/**
 * Reading a multipart form without a size limit (multipart.go): the parts of
 * the body are sorted by form name into plain values and files, each name
 * keeping its entries in arrival order.
 */
module Multipart {
  import opened Common

  /** One part as the multipart reader yields it: its form name and file
      name ("" when absent), its content, and whether reading that content
      fails with an error other than end of file. */
  datatype Part = Part(formName: string, fileName: string, data: seq<Byte>, readFails: bool)

  /** An uploaded file: its file name and content. */
  datatype File = File(name: string, data: seq<Byte>)

  /** The form: the values and the files under each form name. */
  datatype Form = Form(value: map<string, seq<seq<Byte>>>, file: map<string, seq<File>>)

  datatype ReadError =
    | NextPartFailed    // the reader could not produce the next part
    | CopyFailed(formName: string)    // reading a part's content failed

  const EmptyForm: Form := Form(map[], map[])

  /** The entries stored under `name`, or none. */
  function ValueList(form: Form, name: string): seq<seq<Byte>>
  {
    if name in form.value then form.value[name] else []
  }

  function FileList(form: Form, name: string): seq<File>
  {
    if name in form.file then form.file[name] else []
  }

  /** Sorting one named part into the form: without a file name its content
      is appended to the values of its name, otherwise a File is appended to
      the files of its name. */
  function AddPart(form: Form, p: Part): Form
  {
    if p.fileName == "" then
      form.(value := form.value[p.formName := ValueList(form, p.formName) + [p.data]])
    else
      form.(file := form.file[p.formName := FileList(form, p.formName) + [File(p.fileName, p.data)]])
  }

  /** The outcome of reading `parts` into `form`, the reader then ending with
      end of file (`ending == None`) or with an error. Parts without a form
      name are skipped before their content is read. */
  function ReadFrom(form: Form, parts: seq<Part>, ending: Option<ReadError>): Result<Form, ReadError>
    decreases |parts|
  {
    if |parts| == 0 then
      if ending.None? then Success(form) else Failure(ending.value)
    else
      var p := parts[0];
      if p.formName == "" then ReadFrom(form, parts[1..], ending)
      else if p.readFails then Failure(CopyFailed(p.formName))
      else ReadFrom(AddPart(form, p), parts[1..], ending)
  }

  /** `ReadLargeForm`: the part loop. */
  method ReadLargeForm(parts: seq<Part>, ending: Option<ReadError>) returns (r: Result<Form, ReadError>)
    ensures r == ReadFrom(EmptyForm, parts, ending)
  {
    var form := EmptyForm;
    var k := 0;
    while k < |parts|
      invariant k <= |parts|
      invariant ReadFrom(EmptyForm, parts, ending) == ReadFrom(form, parts[k..], ending)
    {
      var p := parts[k];
      assert parts[k..][1..] == parts[k + 1..];
      k := k + 1;
      var name := p.formName;
      if name == "" {
        continue;
      }
      if p.fileName == "" {
        if p.readFails {
          return Failure(CopyFailed(name));
        }
        form := form.(value := form.value[name := ValueList(form, name) + [p.data]]);
        continue;
      }
      var ff := File(p.fileName, []);
      if p.readFails {
        return Failure(CopyFailed(name));
      }
      ff := ff.(data := p.data);
      form := form.(file := form.file[name := FileList(form, name) + [ff]]);
    }
    if ending.Some? {
      return Failure(ending.value);
    }
    return Success(form);
  }

  // ---------------------------------------------------------------------------
  // What a successful read holds.

  /** Whether some part with a form name fails to read. */
  predicate SomeReadFails(parts: seq<Part>)
  {
    exists j :: 0 <= j < |parts| && parts[j].formName != "" && parts[j].readFails
  }

  /** The contents of the value parts named `name`, in order. */
  function ValuesNamed(parts: seq<Part>, name: string): seq<seq<Byte>>
    decreases |parts|
  {
    if |parts| == 0 then []
    else
      var p := parts[0];
      var here := if p.formName == name && name != "" && p.fileName == "" then [p.data] else [];
      here + ValuesNamed(parts[1..], name)
  }

  /** The files of the file parts named `name`, in order. */
  function FilesNamed(parts: seq<Part>, name: string): seq<File>
    decreases |parts|
  {
    if |parts| == 0 then []
    else
      var p := parts[0];
      var here := if p.formName == name && name != "" && p.fileName != "" then [File(p.fileName, p.data)] else [];
      here + FilesNamed(parts[1..], name)
  }

  /** The number of parts named `name`. */
  function CountNamed(parts: seq<Part>, name: string): nat
    decreases |parts|
  {
    if |parts| == 0 then 0
    else (if parts[0].formName == name then 1 else 0) + CountNamed(parts[1..], name)
  }

  /** The empty form name is never a key. */
  predicate NoEmptyName(form: Form)
  {
    "" !in form.value && "" !in form.file
  }

  /** A named part that fails, at the head or further on. */
  lemma SomeReadFailsStep(parts: seq<Part>)
    requires |parts| > 0
    ensures SomeReadFails(parts) <==>
      (parts[0].formName != "" && parts[0].readFails) || SomeReadFails(parts[1..])
  {
    var rest := parts[1..];
    if SomeReadFails(rest) {
      var j :| 0 <= j < |rest| && rest[j].formName != "" && rest[j].readFails;
      assert parts[j + 1] == rest[j];
    }
    if SomeReadFails(parts) {
      var j :| 0 <= j < |parts| && parts[j].formName != "" && parts[j].readFails;
      if j > 0 {
        assert rest[j - 1] == parts[j];
      }
    }
  }

  /** Reading fails exactly when a named part fails to read or the reader
      ends with an error. */
  lemma {:induction false} ReadFromSucceeds(form: Form, parts: seq<Part>, ending: Option<ReadError>)
    ensures ReadFrom(form, parts, ending).Success? <==> !SomeReadFails(parts) && ending.None?
    decreases |parts|
  {
    if |parts| > 0 {
      SomeReadFailsStep(parts);
      var p := parts[0];
      ReadFromSucceeds(if p.formName == "" then form else AddPart(form, p), parts[1..], ending);
    }
  }

  /** Reading continues from `form`: a successful result holds the entries
      already in `form` followed by those of the remaining parts. */
  lemma {:induction false} ReadFromContents(form: Form, parts: seq<Part>, ending: Option<ReadError>, name: string)
    requires NoEmptyName(form)
    requires ReadFrom(form, parts, ending).Success?
    ensures var out := ReadFrom(form, parts, ending).value;
      && NoEmptyName(out)
      && ValueList(out, name) == ValueList(form, name) + ValuesNamed(parts, name)
      && FileList(out, name) == FileList(form, name) + FilesNamed(parts, name)
    decreases |parts|
  {
    if |parts| > 0 {
      var p := parts[0];
      var rest := parts[1..];
      if p.formName == "" {
        ReadFromContents(form, rest, ending, name);
        assert ValuesNamed(parts, name) == ValuesNamed(rest, name);
        assert FilesNamed(parts, name) == FilesNamed(rest, name);
      } else {
        var next := AddPart(form, p);
        ReadFromContents(next, rest, ending, name);
        AddPartContents(form, p, name);
        var out := ReadFrom(form, parts, ending).value;
        assert out == ReadFrom(next, rest, ending).value;
        var vs := if p.formName == name && p.fileName == "" then [p.data] else [];
        var fs := if p.formName == name && p.fileName != "" then [File(p.fileName, p.data)] else [];
        assert ValuesNamed(parts, name) == vs + ValuesNamed(rest, name);
        assert FilesNamed(parts, name) == fs + FilesNamed(rest, name);
        assert ValueList(out, name) == (ValueList(form, name) + vs) + ValuesNamed(rest, name);
        assert FileList(out, name) == (FileList(form, name) + fs) + FilesNamed(rest, name);
        ConcatAssoc(ValueList(form, name), vs, ValuesNamed(rest, name));
        ConcatAssoc(FileList(form, name), fs, FilesNamed(rest, name));
      }
    }
  }

  /** Regrouping a concatenation, proved apart from the lemma above so that
      its solver context stays small. */
  lemma ConcatAssoc<T>(a: seq<T>, b: seq<T>, c: seq<T>)
    ensures (a + b) + c == a + (b + c)
  {
  }

  /** Adding one named part extends the lists of its name by that part. */
  lemma AddPartContents(form: Form, p: Part, name: string)
    requires NoEmptyName(form) && p.formName != ""
    ensures var next := AddPart(form, p);
      && NoEmptyName(next)
      && ValueList(next, name) == ValueList(form, name) + (if p.formName == name && p.fileName == "" then [p.data] else [])
      && FileList(next, name) == FileList(form, name)
           + (if p.formName == name && p.fileName != "" then [File(p.fileName, p.data)] else [])
  {
  }

  /** A successful read stores under each name exactly the contents of the
      value parts and the files of the file parts with that name, in arrival
      order, and never stores the empty name. */
  lemma ReadLargeFormContents(parts: seq<Part>, ending: Option<ReadError>, name: string)
    ensures ReadFrom(EmptyForm, parts, ending).Success? <==> !SomeReadFails(parts) && ending.None?
    ensures ReadFrom(EmptyForm, parts, ending).Success? ==>
      var form := ReadFrom(EmptyForm, parts, ending).value;
      && NoEmptyName(form)
      && ValueList(form, name) == ValuesNamed(parts, name)
      && FileList(form, name) == FilesNamed(parts, name)
  {
    ReadFromSucceeds(EmptyForm, parts, ending);
    if ReadFrom(EmptyForm, parts, ending).Success? {
      ReadFromContents(EmptyForm, parts, ending, name);
    }
  }

  /** Each part with a non-empty form name lands in exactly one of the two
      lists of its name. */
  lemma {:induction false} EachPartOnce(parts: seq<Part>, name: string)
    requires name != ""
    ensures |ValuesNamed(parts, name)| + |FilesNamed(parts, name)| == CountNamed(parts, name)
    decreases |parts|
  {
    if |parts| > 0 {
      EachPartOnce(parts[1..], name);
    }
  }

  /** A read fails at the first named part that cannot be read, with that
      part's name, whatever follows it. */
  lemma {:induction false} ReadFailsAtFirstBadPart(form: Form, parts: seq<Part>, ending: Option<ReadError>, k: nat)
    requires k < |parts| && parts[k].formName != "" && parts[k].readFails
    requires forall j :: 0 <= j < k ==> parts[j].formName == "" || !parts[j].readFails
    ensures ReadFrom(form, parts, ending) == Failure(CopyFailed(parts[k].formName))
    decreases k
  {
    if k > 0 {
      var p := parts[0];
      var next := if p.formName == "" then form else AddPart(form, p);
      var rest := parts[1..];
      assert forall j :: 0 <= j < k - 1 ==> rest[j] == parts[j + 1];
      ReadFailsAtFirstBadPart(next, rest, ending, k - 1);
    }
  }

  // ---------------------------------------------------------------------------
  // Lookups.

  /** The first value under `name`, or the empty string. */
  function FirstValue(form: Form, name: string): seq<Byte>
  {
    if name in form.value && |form.value[name]| > 0 then form.value[name][0] else []
  }

  /** The content and file name of the first file under `name`, or empty
      content and "" (the nil slice and the empty string). */
  function FirstFile(form: Form, name: string): (seq<Byte>, string)
  {
    if name in form.file && |form.file[name]| > 0 then (form.file[name][0].data, form.file[name][0].name)
    else ([], "")
  }

  /** `Form.Value`: a search over the names of the values. */
  method Value(form: Form, name: string) returns (v: seq<Byte>)
    ensures v == FirstValue(form, name)
  {
    var keys := form.value.Keys;
    while keys != {}
      invariant keys <= form.value.Keys
      invariant name in form.value && |form.value[name]| > 0 ==> name in keys
      decreases |keys|
    {
      var k :| k in keys;
      if k == name {
        var list := form.value[k];
        if |list| > 0 {
          return list[0];
        }
      }
      keys := keys - {k};
    }
    return [];
  }

  /** `Form.File`: a search over the names of the files. */
  method FileOf(form: Form, name: string) returns (data: seq<Byte>, filename: string)
    ensures (data, filename) == FirstFile(form, name)
  {
    var keys := form.file.Keys;
    while keys != {}
      invariant keys <= form.file.Keys
      invariant name in form.file && |form.file[name]| > 0 ==> name in keys
      decreases |keys|
    {
      var k :| k in keys;
      if k == name {
        var list := form.file[k];
        if |list| > 0 {
          var f := list[0];
          return f.data, f.name;
        }
      }
      keys := keys - {k};
    }
    return [], "";
  }

  /** After a successful read, Value gives the content of the first value
      part with that name, or the empty string when there is none. */
  lemma ValueOfRead(parts: seq<Part>, name: string)
    requires ReadFrom(EmptyForm, parts, None).Success?
    ensures var form := ReadFrom(EmptyForm, parts, None).value;
      FirstValue(form, name) == if |ValuesNamed(parts, name)| > 0 then ValuesNamed(parts, name)[0] else []
  {
    ReadLargeFormContents(parts, None, name);
  }

  /** After a successful read, File gives the first file part with that name,
      or nothing. */
  lemma FileOfRead(parts: seq<Part>, name: string)
    requires ReadFrom(EmptyForm, parts, None).Success?
    ensures var form := ReadFrom(EmptyForm, parts, None).value;
      FirstFile(form, name) == if |FilesNamed(parts, name)| > 0
        then (FilesNamed(parts, name)[0].data, FilesNamed(parts, name)[0].name) else ([], "")
  {
    ReadLargeFormContents(parts, None, name);
  }
}
