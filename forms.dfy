/** The pieces of the web platform and of JavaScript the route handlers
    rely on: a submitted form (`request.formData()`), `FormData.get`,
    JavaScript's `||` applied to what `get` returns, and
    `String.prototype.includes`. Strings are sequences of `char`, each a
    Unicode scalar value; their lengths agree with JavaScript's UTF-16
    `length` only for Basic Multilingual Plane text, which the model
    assumes. */
module Forms {

  datatype Option<+T> = None | Some(value: T)

  /** One value of a submitted form: a text field or an uploaded file. */
  datatype Value = Text(s: string) | Upload(fileName: string)

  /** A submitted form is the list of its (name, value) parts, in order;
      a name may occur more than once. */
  datatype Part = Part(name: string, value: Value)
  type FormData = seq<Part>

  /** What `form.get(name)` hands back: a string, a `File`, or `null`. */
  datatype Entry = Str(s: string) | FileEntry | Missing

  function EntryOf(v: Value): Entry
  {
    match v
    case Text(s) => Str(s)
    case Upload(_) => FileEntry
  }

  /** `form.get(name)`: the value of the FIRST part with that name, or
      `null` when there is none. */
  function Get(form: FormData, name: string): (r: Entry)
    ensures r.Missing? <==> forall i :: 0 <= i < |form| ==> form[i].name != name
    ensures !r.Missing? ==>
      exists i :: 0 <= i < |form| && form[i].name == name && EntryOf(form[i].value) == r &&
        forall j :: 0 <= j < i ==> form[j].name != name
  {
    if form == [] then Missing
    else if form[0].name == name then EntryOf(form[0].value)
    else
      var r := Get(form[1..], name);
      assert forall i :: 1 <= i < |form| ==> form[i] == form[1..][i - 1];
      r
  }

  /** JavaScript truthiness of an entry: `null` and `""` are falsy, any
      other string and any `File` object are truthy. */
  predicate Truthy(e: Entry)
  {
    match e
    case Str(s) => s != ""
    case FileEntry => true
    case Missing => false
  }

  /** `e || fallback`: `e` itself when it is truthy, the fallback string
      otherwise. */
  function Or(e: Entry, fallback: string): (r: Entry)
    ensures e.Missing? || e == Str("") ==> r == Str(fallback)
    ensures e.Str? && e.s != "" ==> r == e
    ensures e.FileEntry? ==> r == FileEntry
    ensures r.Missing? == false
  {
    if Truthy(e) then e else Str(fallback)
  }

  /** `t` is a prefix of `s`. */
  predicate StartsWith(s: string, t: string)
  {
    |t| <= |s| && s[..|t|] == t
  }

  /** `s.includes(t)`: `t` occurs in `s` at some position, searched from
      the left. */
  predicate Includes(s: string, t: string)
    decreases |s|
  {
    StartsWith(s, t) || (s != [] && Includes(s[1..], t))
  }

  /** Searching for a one-character string finds exactly the strings that
      hold that character. */
  lemma {:induction false} IncludesChar(s: string, c: char)
    ensures Includes(s, [c]) <==> c in s
  {
    if s != [] {
      IncludesChar(s[1..], c);
      assert s == [s[0]] + s[1..];
    }
  }
}
