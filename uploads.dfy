/**
 * `AdminApp.uploaded_file_name`: the stored name of an uploaded file, taken
 * from the value a form's upload field submits. The value is a JSON object;
 * the name is under "file_name", else under "response", else it is looked
 * for in the nested object under "file".
 */
module Uploads {

  /** A submitted value: a string, or an object of named values. */
  datatype Field = Text(s: string) | Dict(entries: map<string, Field>)

  /** The lookup's outcome: the value found, Python's `None`, or the
      `TypeError` Python raises when it subscripts a string with a key. */
  datatype Lookup = Found(value: Field) | Missing | TypeError

  /** Python's `key in s` for strings: `key` occurs in `s` as a substring. */
  predicate Occurs(key: string, s: string)
  {
    exists i :: 0 <= i <= |s| && key <= s[i..]
  }

  /** `uploaded_file_name`. On a string (reachable only under "file"),
      `'file_name' in s` tests for a substring, and a hit is followed by a
      subscript that raises `TypeError`. */
  function UploadedFileName(f: Field): Lookup
  {
    match f
    case Dict(m) =>
      if "file_name" in m then Found(m["file_name"])
      else if "response" in m then Found(m["response"])
      else if "file" in m then UploadedFileName(m["file"])
      else Missing
    case Text(s) =>
      if Occurs("file_name", s) || Occurs("response", s) || Occurs("file", s) then TypeError
      else Missing
  }

  /** `f` nested `n` times under the "file" key. */
  function WrapInFile(f: Field, n: nat): Field
  {
    if n == 0 then f else Dict(map["file" := WrapInFile(f, n - 1)])
  }

  /** Nesting under "file" does not change the name found. */
  lemma {:induction false} WrapInFileTransparent(f: Field, n: nat)
    ensures UploadedFileName(WrapInFile(f, n)) == UploadedFileName(f)
  {
    if n > 0 {
      WrapInFileTransparent(f, n - 1);
      var m := map["file" := WrapInFile(f, n - 1)];
      assert "file_name" !in m && "response" !in m;
    }
  }

  /** Only the three keys matter: keys other than "file_name", "response" and
      "file" can be added or dropped at any depth without changing the result. */
  function Relevant(f: Field): Field
  {
    match f
    case Text(s) => f
    case Dict(m) =>
      Dict(map k | k in m && k in {"file_name", "response", "file"} ::
             if k == "file" then Relevant(m[k]) else m[k])
  }

  lemma {:induction false} OnlyKeysMatter(f: Field)
    ensures UploadedFileName(Relevant(f)) == UploadedFileName(f)
  {
    match f
    case Text(_) =>
    case Dict(m) =>
      if "file_name" !in m && "response" !in m && "file" in m {
        OnlyKeysMatter(m["file"]);
      }
  }

  /** The lookup order is fixed: "file_name" wins over "response", which wins
      over the nested "file". */
  lemma FileNameFirst(m: map<string, Field>)
    requires "file_name" in m
    ensures UploadedFileName(Dict(m)) == Found(m["file_name"])
  {
  }

  lemma ResponseSecond(m: map<string, Field>)
    requires "file_name" !in m && "response" in m
    ensures UploadedFileName(Dict(m)) == Found(m["response"])
  {
  }

  /** An object without any of the three keys yields `None`. */
  lemma NoKeysMissing(m: map<string, Field>)
    requires "file_name" !in m && "response" !in m && "file" !in m
    ensures UploadedFileName(Dict(m)) == Missing
  {
  }

  /** Objects nested only through "file" (the shape the upload widget sends)
      never raise. */
  predicate NestsObjects(f: Field)
  {
    match f
    case Text(_) => false
    case Dict(m) => "file" in m ==> NestsObjects(m["file"])
  }

  lemma {:induction false} ObjectsNeverRaise(f: Field)
    requires NestsObjects(f)
    ensures !UploadedFileName(f).TypeError?
  {
    match f
    case Dict(m) =>
      if "file_name" !in m && "response" !in m && "file" in m {
        ObjectsNeverRaise(m["file"]);
      }
  }

  /** A string under "file" that mentions "file" makes Python raise. */
  lemma StringUnderFileRaises()
    ensures UploadedFileName(Dict(map["file" := Text("my_file")])) == TypeError
  {
    var s := "my_file";
    assert "file" <= s[3..];
  }
}
