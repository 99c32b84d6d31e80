/** JSON texts as trees (sections 2, 4 and 7 of RFC 8259, restricted to objects, unescaped strings and
    single-token scalars, with any whitespace between tokens), and the proof that the scanner finds in a
    printed tree what a reader of the tree would. */
module JsonDocuments {
  import opened Wrappers
  import opened JsonReader

  datatype Json =
    | Text(text: string)                          // "text"
    | Token(token: string)                        // a number, true, false or null
    | Object(members: Members, beforeClose: string)

  /** Members in order; each carries the whitespace around its key, its colon and its value. */
  datatype Members =
    | NoMembers
    | Member(beforeKey: string, key: string, beforeColon: string, afterColon: string, value: Json, afterValue: string,
             rest: Members)

  datatype Document = Document(lead: string, root: Json, trail: string)

  // ---------------------------------------------------------------------------------------------
  // Printing, in front of whatever follows

  function Show(v: Json, tail: string): string
    decreases v, 0
  {
    match v
    case Text(s) => "\"" + (s + ("\"" + tail))
    case Token(t) => t + tail
    case Object(ms, w) => "{" + ShowMembers(ms, w + ("}" + tail))
  }

  function ShowMembers(ms: Members, tail: string): string
    decreases ms, 1
  {
    match ms
    case NoMembers => tail
    case Member(w0, k, w1, w2, v, w3, rest) =>
      w0 + ("\"" + (k + ("\"" + (w1 + (":" + (w2 + Show(v, w3 + AfterMember(rest, tail))))))))
  }

  function AfterMember(rest: Members, tail: string): string
    decreases rest, 2
  {
    if rest.NoMembers? then tail else "," + ShowMembers(rest, tail)
  }

  function Print(d: Document): string {
    d.lead + Show(d.root, d.trail)
  }

  // ---------------------------------------------------------------------------------------------
  // Well-formed trees

  predicate Blank(w: string) {
    forall i :: 0 <= i < |w| ==> IsWhitespace(w[i])
  }

  predicate Clean(s: string) {
    forall i :: 0 <= i < |s| ==> s[i] != '"' && s[i] != '\\'
  }

  predicate IsToken(t: string) {
    t != "" && forall i :: 0 <= i < |t| ==> t[i] != '"' && t[i] != '{' && !EndsToken(t[i])
  }

  predicate WellFormed(v: Json) {
    match v
    case Text(s) => Clean(s)
    case Token(t) => IsToken(t)
    case Object(ms, w) => WellFormedMembers(ms) && Blank(w)
  }

  predicate WellFormedMembers(ms: Members) {
    match ms
    case NoMembers => true
    case Member(w0, k, w1, w2, v, w3, rest) =>
      Blank(w0) && '"' !in k && Blank(w1) && Blank(w2) && WellFormed(v) && Blank(w3) && WellFormedMembers(rest)
  }

  predicate WellFormedDocument(d: Document) {
    Blank(d.lead) && Blank(d.trail) && d.root.Object? && WellFormed(d.root)
  }

  // ---------------------------------------------------------------------------------------------
  // What a reader of the tree would find

  datatype Field = Field(key: string, value: Json)

  /** All members at every depth, in document order. */
  function Fields(v: Json): seq<Field> {
    match v
    case Object(ms, _) => MemberFields(ms)
    case _ => []
  }

  function MemberFields(ms: Members): seq<Field> {
    match ms
    case NoMembers => []
    case Member(_, k, _, _, v, _, rest) => [Field(k, v)] + Fields(v) + MemberFields(rest)
  }

  /** The value of the first field with this key. */
  function First(fields: seq<Field>, key: string): Option<Json> {
    if fields == [] then None else if fields[0].key == key then Some(fields[0].value) else First(fields[1..], key)
  }

  /** The value of the first field with this key whose value is not an object. */
  function FirstScalar(fields: seq<Field>, key: string): Option<Json> {
    if fields == [] then None
    else if fields[0].key == key && !fields[0].value.Object? then Some(fields[0].value)
    else FirstScalar(fields[1..], key)
  }

  /** How a scalar reads. */
  function ScalarLookup(v: Option<Json>): Lookup {
    match v
    case Some(Text(s)) => Found(s, true)
    case Some(Token(t)) => Found(t, false)
    case _ => Missing
  }

  // ---------------------------------------------------------------------------------------------
  // One token at a time

  lemma {:induction false} IndexAfter(u: string, t: string)
    requires '"' !in u
    ensures IndexOf(u + t, '"') == |u| + IndexOf(t, '"')
  {
    if u == "" {
      assert u + t == t;
    } else {
      assert (u + t)[1..] == u[1..] + t;
      IndexAfter(u[1..], t);
    }
  }

  lemma DropConcat(u: string, t: string, n: nat)
    requires n <= |t|
    ensures (u + t)[|u| + n..] == t[n..]
  {
  }

  lemma ScanSkips(u: string, t: string, key: string)
    requires '"' !in u
    ensures Scan(u + t, key) == Scan(t, key)
  {
    IndexAfter(u, t);
    var q := IndexOf(t, '"');
    if q < |t| {
      DropConcat(u, t, q + 1);
    }
  }

  /** A quoted string in front of `t`. */
  lemma ScanString(k: string, t: string, key: string)
    requires '"' !in k
    ensures Scan("\"" + (k + ("\"" + t)), key)
         == if ColonFollows(t) && k == key then ReadValue(SkipWhitespace(SkipWhitespace(t)[1..])) else Scan(t, key)
  {
    var s := k + ("\"" + t);
    assert ("\"" + s)[1..] == s;
    IndexAfter(k, "\"" + t);
    DropConcat(k, "\"" + t, 1);
    assert ("\"" + t)[1..] == t && s[..|k|] == k;
    hide SkipWhitespace, ReadValue;
  }

  lemma {:induction false} SkipsBlank(w: string, t: string)
    requires Blank(w)
    ensures SkipWhitespace(w + t) == SkipWhitespace(t)
  {
    if w == "" {
      assert w + t == t;
    } else {
      assert (w + t)[1..] == w[1..] + t;
      SkipsBlank(w[1..], t);
    }
  }

  lemma {:induction false} ClosingQuoteOf(s: string, t: string, from: nat)
    requires Clean(s) && from <= |s|
    ensures ClosingQuote(s + ("\"" + t), from) == |s|
    decreases |s| - from
  {
    if from < |s| {
      ClosingQuoteOf(s, t, from + 1);
    }
  }

  lemma ReadsText(s: string, t: string)
    requires Clean(s)
    ensures ReadValue("\"" + (s + ("\"" + t))) == Found(s, true)
  {
    var body := s + ("\"" + t);
    assert ("\"" + body)[1..] == body;
    ClosingQuoteOf(s, t, 0);
    assert body[..|s|] == s;
  }

  lemma {:induction false} TokenLengthOf(u: string, t: string)
    requires (forall i :: 0 <= i < |u| ==> !EndsToken(u[i])) && t != "" && EndsToken(t[0])
    ensures TokenLength(u + t) == |u|
  {
    if u == "" {
      assert u + t == t;
    } else {
      assert (u + t)[1..] == u[1..] + t;
      TokenLengthOf(u[1..], t);
    }
  }

  lemma ReadsToken(u: string, t: string)
    requires IsToken(u) && t != "" && EndsToken(t[0])
    ensures ReadValue(u + t) == Found(u, false)
  {
    TokenLengthOf(u, t);
    assert (u + t)[..|u|] == u;
  }

  /** What follows a value inside an object: after whitespace, a comma or a closing brace. */
  predicate Closes(t: string) {
    var s := SkipWhitespace(t);
    s != "" && (s[0] == ',' || s[0] == '}')
  }

  lemma ClosesAfterBlank(w: string, t: string)
    requires Blank(w) && t != "" && (t[0] == ',' || t[0] == '}')
    ensures Closes(w + t) && (w + t)[0] == (if w == "" then t[0] else w[0])
  {
    SkipsBlank(w, t);
  }

  lemma AfterValueCloses(w: string, rest: Members, tail: string)
    requires Blank(w) && Closes(tail) && tail != ""
    ensures var t := w + AfterMember(rest, tail); t != "" && Closes(t) && EndsToken(t[0])
  {
    SkipsBlank(w, AfterMember(rest, tail));
  }

  lemma ShowStartsValue(v: Json, tail: string)
    requires WellFormed(v)
    ensures Show(v, tail) != "" && !IsWhitespace(Show(v, tail)[0])
    ensures SkipWhitespace(Show(v, tail)) == Show(v, tail)
  {
  }

  // ---------------------------------------------------------------------------------------------
  // Whole trees

  lemma {:induction false} FirstConcat(a: seq<Field>, b: seq<Field>, key: string)
    ensures First(a + b, key) == if First(a, key).Some? then First(a, key) else First(b, key)
  {
    if a == [] {
      assert a + b == b;
    } else {
      assert (a + b)[1..] == a[1..] + b;
      FirstConcat(a[1..], b, key);
    }
  }

  /** `got` is how `v` reads when it is the value found; an object reads as junk starting with its brace. */
  predicate Reads(v: Json, got: Lookup) {
    if v.Object? then got.Found? && !got.quoted && got.text != "" && got.text[0] == '{'
    else got == ScalarLookup(Some(v))
  }

  lemma ReadsShown(v: Json, tail: string)
    requires WellFormed(v) && tail != "" && EndsToken(tail[0])
    ensures Reads(v, ReadValue(Show(v, tail)))
  {
    match v
    case Text(s) => ReadsText(s, tail);
    case Token(t) => ReadsToken(t, tail);
    case Object(_, _) =>
  }

  /** Scanning a printed value that no key introduces: its fields, then what follows. */
  lemma {:induction false} ScanValue(v: Json, tail: string, key: string)
    requires WellFormed(v) && Closes(tail) && tail != ""
    ensures match First(Fields(v), key)
            case Some(found) => Reads(found, Scan(Show(v, tail), key))
            case None => Scan(Show(v, tail), key) == Scan(tail, key)
    decreases v, 0
  {
    match v
    case Text(s) => ScanString(s, tail, key);
    case Token(t) => ScanSkips(t, tail, key);
    case Object(ms, w) =>
      var close := w + ("}" + tail);
      ScanSkips("{", ShowMembers(ms, close), key);
      ClosesAfterBlank(w, "}" + tail);
      ScanMembers(ms, close, key);
      ScanSkips(w, "}" + tail, key);
      ScanSkips("}", tail, key);
  }

  lemma {:induction false} ScanMembers(ms: Members, tail: string, key: string)
    requires WellFormedMembers(ms) && Closes(tail) && tail != ""
    ensures match First(MemberFields(ms), key)
            case Some(found) => Reads(found, Scan(ShowMembers(ms, tail), key))
            case None => Scan(ShowMembers(ms, tail), key) == Scan(tail, key)
    decreases ms, 1
  {
    match ms
    case NoMembers =>
    case Member(w0, k, w1, w2, v, w3, rest) =>
      var next := AfterMember(rest, tail);
      ScanMember(w0, k, w1, w2, v, w3 + next, key);
      AfterValueCloses(w3, rest, tail);
      if k == key {
        ReadsShown(v, w3 + next);
      } else {
        ScanValue(v, w3 + next, key);
        FirstConcat([Field(k, v)] + Fields(v), MemberFields(rest), key);
        FirstConcat([Field(k, v)], Fields(v), key);
        ScanSkips(w3, next, key);
        if rest.Member? {
          ScanSkips(",", ShowMembers(rest, tail), key);
          ScanMembers(rest, tail, key);
        }
      }
  }

  /** One member up to its value. */
  lemma ScanMember(w0: string, k: string, w1: string, w2: string, v: Json, tail: string, key: string)
    requires Blank(w0) && '"' !in k && Blank(w1) && Blank(w2) && WellFormed(v)
    ensures Scan(w0 + ("\"" + (k + ("\"" + (w1 + (":" + (w2 + Show(v, tail))))))), key)
         == if k == key then ReadValue(Show(v, tail)) else Scan(Show(v, tail), key)
  {
    var t2 := w2 + Show(v, tail);
    var t1 := w1 + (":" + t2);
    ScanSkips(w0, "\"" + (k + ("\"" + t1)), key);
    ScanString(k, t1, key);
    SkipsBlank(w1, ":" + t2);
    assert SkipWhitespace(":" + t2) == ":" + t2 && (":" + t2)[1..] == t2;
    SkipsBlank(w2, Show(v, tail));
    ShowStartsValue(v, tail);
    ScanSkips(w1, ":" + t2, key);
    ScanSkips(":", t2, key);
    ScanSkips(w2, Show(v, tail), key);
  }

  /** For every document, whatever its whitespace and nesting, and every key: the scanner returns the value
      of the first field with that key in document order, with the right quoted flag; it is not fooled by
      string values equal to the key; it finds nothing exactly when no field has the key. */
  lemma ScanFindsFirstField(d: Document, key: string)
    requires WellFormedDocument(d) && key != ""
    ensures match First(Fields(d.root), key)
            case Some(found) => Reads(found, FindValue(Print(d), key))
            case None => FindValue(Print(d), key) == Missing
  {
    var ms, close := d.root.members, d.root.beforeClose + ("}" + d.trail);
    ScanSkips(d.lead, Show(d.root, d.trail), key);
    ScanSkips("{", ShowMembers(ms, close), key);
    ClosesAfterBlank(d.root.beforeClose, "}" + d.trail);
    ScanMembers(ms, close, key);
    ScanSkips(d.root.beforeClose, "}" + d.trail, key);
    ScanSkips("}", d.trail, key);
    ScanSkips(d.trail, "", key);
    assert d.trail + "" == d.trail;
  }

  /** "The first scalar with the key" is therefore what the scanner returns exactly when the first field with
      the key, if there is one, is not an object. */
  lemma ScanFindsFirstScalarIff(d: Document, key: string)
    requires WellFormedDocument(d) && key != ""
    ensures FindValue(Print(d), key) == ScalarLookup(FirstScalar(Fields(d.root), key))
       <==> !(First(Fields(d.root), key).Some? && First(Fields(d.root), key).value.Object?)
  {
    ScanFindsFirstField(d, key);
    FieldsAreWellFormed(d.root);
    ScalarIsWellFormed(Fields(d.root), key);
    FirstIsFirstScalar(Fields(d.root), key);
  }

  lemma {:induction false} FirstIsFirstScalar(fields: seq<Field>, key: string)
    ensures !(First(fields, key).Some? && First(fields, key).value.Object?)
            ==> FirstScalar(fields, key) == First(fields, key)
  {
    if fields != [] && fields[0].key != key {
      FirstIsFirstScalar(fields[1..], key);
    }
  }

  lemma {:induction false} FieldsAreWellFormed(v: Json)
    requires WellFormed(v)
    ensures forall i :: 0 <= i < |Fields(v)| ==> WellFormed(Fields(v)[i].value)
    decreases v, 0
  {
    if v.Object? {
      MemberFieldsAreWellFormed(v.members);
    }
  }

  lemma {:induction false} MemberFieldsAreWellFormed(ms: Members)
    requires WellFormedMembers(ms)
    ensures forall i :: 0 <= i < |MemberFields(ms)| ==> WellFormed(MemberFields(ms)[i].value)
    decreases ms, 1
  {
    if ms.Member? {
      FieldsAreWellFormed(ms.value);
      MemberFieldsAreWellFormed(ms.rest);
    }
  }

  lemma {:induction false} ScalarIsWellFormed(fields: seq<Field>, key: string)
    requires forall i :: 0 <= i < |fields| ==> WellFormed(fields[i].value)
    ensures FirstScalar(fields, key).Some?
            ==> WellFormed(FirstScalar(fields, key).value) && !FirstScalar(fields, key).value.Object?
  {
    if fields != [] {
      ScalarIsWellFormed(fields[1..], key);
    }
  }

  /** The document {"s":{},"s":"X"}: the object under the first "s" hides the scalar under the second. */
  function HiddenScalar(): Document {
    Document("", Object(Member("", "s", "", "", Object(NoMembers, ""), "",
                               Member("", "s", "", "", Text("X"), "", NoMembers)), ""), "")
  }

  lemma ObjectHidesScalar()
    ensures WellFormedDocument(HiddenScalar())
    ensures FirstScalar(Fields(HiddenScalar().root), "s") == Some(Text("X"))
    ensures FindValue(Print(HiddenScalar()), "s") != Found("X", true)
  {
    var fields := [Field("s", Object(NoMembers, "")), Field("s", Text("X"))];
    assert Fields(HiddenScalar().root) == fields;
    assert fields[1..] == [Field("s", Text("X"))];
    ScanFindsFirstField(HiddenScalar(), "s");
  }
}
