/** The field extraction of examples/cloud/artik_cloud_example.c, which works on the text of a
    cloud response without parsing it, and what it finds in a compact JSON object. */
module JsonField {
  import opened Base

  // Unterminated: no end token follows, so the C loop runs past the end of the text.
  datatype Extract = NotFound | Found(text: string) | Unterminated

  // snprintf into a buffer of 256 characters.
  const PREFIX_MAX := 255

  function Prefix(obj: string): (p: string)
    ensures p != [] && p[0] == '"'
  {
    var p := "\"" + obj + "\":";
    if |p| <= PREFIX_MAX then p else p[..PREFIX_MAX]
  }

  // The text behind the first occurrence of prefix: strstr, then strlen(prefix) further.
  function After(data: string, prefix: string): Option<string> {
    if prefix <= data then Some(data[|prefix|..])
    else if data == [] then None
    else After(data[1..], prefix)
  }

  // The text before the first c.
  function UpTo(s: string, c: char): Option<string> {
    if s == [] then None
    else if s[0] == c then Some([])
    else
      var rest := UpTo(s[1..], c);
      if rest.Some? then Some([s[0]] + rest.value) else None
  }

  // What is copied out of the text behind the prefix.
  function Copied(rest: string): Extract {
    if rest == [] then Unterminated
    else
      var text := UpTo(rest[1..], if rest[0] == '{' then '}' else '"');
      if text.Some? then Found(text.value) else Unterminated
  }

  function ParseField(data: string, obj: string): Extract {
    var rest := After(data, Prefix(obj));
    if rest.Some? then Copied(rest.value) else NotFound
  }

  method StrStr(data: string, prefix: string) returns (at: Option<nat>)
    requires prefix != []
    ensures at.Some? <==> After(data, prefix).Some?
    ensures at.Some? ==> at.value + |prefix| <= |data|
    ensures at.Some? ==> After(data, prefix) == Some(data[at.value + |prefix|..])
  {
    var i := 0;
    while i + |prefix| <= |data|
      invariant i <= |data|
      invariant After(data[i..], prefix) == After(data, prefix)
    {
      if data[i..i + |prefix|] == prefix {
        assert prefix <= data[i..];
        assert data[i..][|prefix|..] == data[i + |prefix|..];
        return Some(i);
      }
      assert data[i..][..|prefix|] == data[i..i + |prefix|];
      assert data[i..][1..] == data[i + 1..];
      i := i + 1;
    }
    TooShort(data[i..], prefix);
    return None;
  }

  lemma {:induction false} TooShort(data: string, prefix: string)
    requires |data| < |prefix|
    ensures After(data, prefix).None?
  {
    if data != [] { TooShort(data[1..], prefix); }
  }

  // Advances to the first c at or behind `from`.
  method EndOf(data: string, from: nat, c: char) returns (end: nat)
    requires from <= |data|
    ensures from <= end <= |data|
    ensures UpTo(data[from..], c) == if end < |data| then Some(data[from..end]) else None
  {
    end := from;
    while end < |data| && data[end] != c
      invariant from <= end <= |data|
      invariant c !in data[from..end]
    {
      end := end + 1;
    }
    ghost var s := data[from..end];
    if end < |data| {
      UpToFirst(s, c, data[end + 1..]);
      assert data[from..] == s + [c] + data[end + 1..];
    } else {
      UpToNone(s, c);
      assert data[from..] == s;
    }
  }

  lemma {:induction false} UpToNone(s: string, c: char)
    requires c !in s
    ensures UpTo(s, c).None?
  {
    if s != [] { UpToNone(s[1..], c); }
  }

  lemma {:induction false} UpToFirst(s: string, c: char, post: string)
    requires c !in s
    ensures UpTo(s + [c] + post, c) == Some(s)
  {
    var text := s + [c] + post;
    if s != [] {
      UpToFirst(s[1..], c, post);
      assert [s[0]] + s[1..] == s;
      assert text[1..] == s[1..] + [c] + post;
    }
  }

  method ParseJsonObject(data: string, obj: string) returns (res: Extract)
    ensures res == ParseField(data, obj)
  {
    hide After;
    var prefix := Prefix(obj);
    var at := StrStr(data, prefix);
    if at.None? { return NotFound; }
    var substr := at.value + |prefix|;
    ghost var rest := data[substr..];
    if substr == |data| { return Unterminated; }
    assert rest[1..] == data[substr + 1..];
    var idx := EndOf(data, substr + 1, if data[substr] == '{' then '}' else '"');
    if idx == |data| { return Unterminated; }
    return Found(data[substr + 1..idx]);
  }

  // ---- Compact JSON ----

  // A string, or a number, true, false or null as written.
  datatype Value = Quoted(text: string) | Bare(text: string)

  datatype Pair = Pair(key: string, value: Value)

  datatype Field = Leaf(key: string, value: Value) | Object(key: string, pairs: seq<Pair>)

  predicate IsKey(k: string) {
    forall i :: 0 <= i < |k| ==> k[i] !in "\":,{}"
  }

  predicate IsValue(v: Value) {
    match v
    case Quoted(t) => '"' !in t && '}' !in t
    case Bare(t) => t != [] && forall i :: 0 <= i < |t| ==> t[i] !in "\",{}"
  }

  predicate PairOk(p: Pair) { IsKey(p.key) && IsValue(p.value) }

  predicate FieldOk(f: Field) {
    && IsKey(f.key)
    && (f.Leaf? ==> IsValue(f.value))
    && (f.Object? ==> forall p <- f.pairs :: PairOk(p))
  }

  function KeyText(k: string): string { "\"" + k + "\":" }

  function ValueText(v: Value): string { if v.Quoted? then "\"" + v.text + "\"" else v.text }

  function PairText(k: string, v: Value): string { KeyText(k) + ValueText(v) }

  function Comma(n: nat): string { if n > 1 then "," else [] }

  function PairsText(ps: seq<Pair>): string {
    if ps == [] then [] else PairText(ps[0].key, ps[0].value) + Comma(|ps|) + PairsText(ps[1..])
  }

  function FieldText(f: Field): string {
    match f
    case Leaf(k, v) => PairText(k, v)
    case Object(k, ps) => KeyText(k) + "{" + PairsText(ps) + "}"
  }

  function FieldsText(fs: seq<Field>): string {
    if fs == [] then [] else FieldText(fs[0]) + Comma(|fs|) + FieldsText(fs[1..])
  }

  // An object without white space.
  function Compact(fs: seq<Field>): string { "{" + FieldsText(fs) + "}" }

  // The fields in document order, nested ones behind their object, with the text a reader
  // wants: of an object the text between its braces.
  datatype Entry = Entry(key: string, text: string, bare: bool)

  function PairEntries(ps: seq<Pair>): seq<Entry> {
    if ps == [] then []
    else [Entry(ps[0].key, ps[0].value.text, ps[0].value.Bare?)] + PairEntries(ps[1..])
  }

  function FieldEntries(f: Field): seq<Entry> {
    match f
    case Leaf(k, v) => [Entry(k, v.text, v.Bare?)]
    case Object(k, ps) => [Entry(k, PairsText(ps), false)] + PairEntries(ps)
  }

  function Entries(fs: seq<Field>): seq<Entry> {
    if fs == [] then [] else FieldEntries(fs[0]) + Entries(fs[1..])
  }

  function FirstEntry(es: seq<Entry>, key: string): Option<Entry> {
    if es == [] then None else if es[0].key == key then Some(es[0]) else FirstEntry(es[1..], key)
  }

  // The first field with the key is the last field of all, and not quoted.
  predicate RunsPast(es: seq<Entry>, key: string) {
    && es != [] && es[|es| - 1].key == key && es[|es| - 1].bare
    && FirstEntry(es[..|es| - 1], key).None?
  }

  lemma {:induction false} FirstAppend(a: seq<Entry>, b: seq<Entry>, key: string)
    ensures FirstEntry(a + b, key) == if FirstEntry(a, key).Some? then FirstEntry(a, key) else FirstEntry(b, key)
  {
    if a == [] {
      assert a + b == b;
    } else {
      FirstAppend(a[1..], b, key);
      assert (a + b)[1..] == a[1..] + b;
    }
  }

  lemma LastFound(a: seq<Entry>, key: string)
    requires a != [] && a[|a| - 1].key == key
    ensures FirstEntry(a, key).Some?
  {
    var n := |a| - 1;
    FirstAppend(a[..n], a[n..], key);
    assert a[..n] + a[n..] == a;
    assert a[n..][0] == a[n];
  }

  lemma RunsPastAppend(a: seq<Entry>, b: seq<Entry>, key: string)
    ensures FirstEntry(a, key).Some? ==> (RunsPast(a + b, key) <==> b == [] && RunsPast(a, key))
    ensures FirstEntry(a, key).None? ==> (RunsPast(a + b, key) <==> RunsPast(b, key))
  {
    if b == [] {
      assert a + b == a;
      if RunsPast(a, key) { LastFound(a, key); }
    } else {
      var n := |b| - 1;
      FirstAppend(a, b[..n], key);
      assert (a + b)[..|a| + n] == a + b[..n] && (a + b)[|a| + n] == b[n];
    }
  }

  // ---- What is copied of a field ----

  // `behind` is the text behind the value. A value that is not quoted loses its first
  // character and is read on to the next quote.
  function ValueAt(v: Value, behind: string): Extract {
    if v.Quoted? then Found(v.text) else Copied(v.text + behind)
  }

  function PairAt(ps: seq<Pair>, key: string, behind: string): Extract {
    if ps == [] then NotFound
    else
      var rest := Comma(|ps|) + (PairsText(ps[1..]) + behind);
      if ps[0].key == key then ValueAt(ps[0].value, rest) else PairAt(ps[1..], key, behind)
  }

  function FieldAt(f: Field, key: string, behind: string): Extract {
    if f.key == key then
      if f.Leaf? then ValueAt(f.value, behind) else Found(PairsText(f.pairs))
    else if f.Object? then PairAt(f.pairs, key, "}" + behind)
    else NotFound
  }

  function FieldOf(fs: seq<Field>, key: string, behind: string): Extract {
    if fs == [] then NotFound
    else
      var r := FieldAt(fs[0], key, Comma(|fs|) + (FieldsText(fs[1..]) + behind));
      if r.NotFound? then FieldOf(fs[1..], key, behind) else r
  }

  // How an extract relates to the entries in front of `behind`.
  ghost predicate Reads(r: Extract, es: seq<Entry>, key: string, behind: string) {
    var e := FirstEntry(es, key);
    && (e.None? <==> r.NotFound?)
    && (e.Some? ==> (r == Found(e.value.text) <==> !e.value.bare))
    && (r.Unterminated? <==> RunsPast(es, key) && '"' !in behind)
  }

  lemma {:induction false} UpToNoneIff(s: string, c: char)
    ensures UpTo(s, c).None? <==> c !in s
  {
    if s != [] { UpToNoneIff(s[1..], c); }
  }

  lemma {:induction false} UpToStops(s: string, c: char)
    ensures UpTo(s, c).Some? ==> UpTo(s, c).value <= s && c !in UpTo(s, c).value
    ensures UpTo(s, c).Some? ==> |UpTo(s, c).value| < |s| && s[|UpTo(s, c).value|] == c
  {
    if s != [] { UpToStops(s[1..], c); }
  }

  // A value that is not quoted is never read as it stands: either no quote follows and the
  // reader runs past the end, or more than the value is copied.
  lemma BareIsMisread(v: Value, behind: string)
    requires v.Bare? && IsValue(v) && AfterValue(behind)
    ensures ValueAt(v, behind) != Found(v.text) && ValueAt(v, behind) != NotFound
    ensures ValueAt(v, behind).Unterminated? <==> '"' !in behind
  {
    var t := v.text;
    var rest := t + behind;
    var s := rest[1..];
    assert rest[0] == t[0] != '{' && s == t[1..] + behind;
    UpToNoneIff(s, '"');
    UpToStops(s, '"');
    assert '"' !in t[1..];
    hide UpTo;
    var u, n := UpTo(s, '"'), |t| - 1;
    assert behind != [] ==> s[n] == behind[0];
    SameStart(t, s, n);
    assert '"' in s <==> '"' in behind;
  }

  // ---- What the extraction finds ----

  predicate Searchable(key: string) { IsKey(key) && |key| + 3 <= PREFIX_MAX }

  // What may follow a string value.
  predicate AfterValue(post: string) { post == [] || post[0] == ',' || post[0] == '}' }

  lemma SameStart(p: string, text: string, i: nat)
    requires i < |p|
    ensures p <= text ==> i < |text| && text[i] == p[i]
  {
  }

  // An occurrence never starts where the text has no quote.
  lemma {:induction false} SkipPlain(s: string, post: string, key: string)
    requires Searchable(key) && '"' !in s
    ensures ParseField(s + post, key) == ParseField(post, key)
  {
    hide ParseField, Prefix;
    if s == [] {
      assert s + post == post;
    } else {
      SkipPlain(s[1..], post, key);
      SameStart(Prefix(key), [s[0]] + (s[1..] + post), 0);
      SkipOne(s[0], s[1..] + post, key);
      assert [s[0]] + (s[1..] + post) == s + post;
    }
  }

  lemma SkipOne(c: char, post: string, key: string)
    requires Searchable(key)
    requires !(Prefix(key) <= [c] + post)
    ensures ParseField([c] + post, key) == ParseField(post, key)
  {
    assert ([c] + post)[1..] == post;
  }

  // A quoted text matches the prefix only as a key.
  lemma QuotedMatch(k: string, post: string, key: string)
    requires Searchable(key) && '"' !in k
    requires Prefix(key) <= "\"" + k + "\"" + post
    ensures k == key && post != [] && post[0] == ':'
  {
    var text := "\"" + k + "\"" + post;
    var p := Prefix(key);
    assert forall i :: 0 <= i < |k| ==> text[i + 1] == k[i];
    assert forall i :: 0 <= i < |key| ==> p[i + 1] == key[i];
    assert p[|key| + 1] == '"' && p[|key| + 2] == ':';
    assert text[|k| + 1] == '"' && forall i :: 0 <= i < |p| ==> p[i] == text[i];
    assert |key| == |k|;
    assert text[|k| + 2] == post[0];
  }

  // A closing quote does not start a match: no key begins with what follows it.
  lemma ClosingMatch(post: string, key: string)
    requires Searchable(key)
    requires post == [] || post[0] in ":,}"
    ensures !(Prefix(key) <= "\"" + post)
  {
    var text, p := "\"" + post, Prefix(key);
    assert p[1] == if key == [] then '"' else key[0];
    SameStart(p, text, 1);
  }

  // A quoted text that is not the key is passed over.
  lemma SkipQuoted(k: string, post: string, key: string)
    requires Searchable(key) && '"' !in k
    requires k != key || AfterValue(post)
    requires post == [] || post[0] in ":,}"
    ensures ParseField("\"" + k + "\"" + post, key) == ParseField(post, key)
  {
    var close := "\"" + post;
    var text := "\"" + (k + close);
    assert text == "\"" + k + "\"" + post;
    if Prefix(key) <= text { QuotedMatch(k, post, key); }
    SkipOne('"', k + close, key);
    SkipPlain(k, close, key);
    ClosingMatch(post, key);
    SkipOne('"', post, key);
  }

  lemma SkipKey(k: string, post: string, key: string)
    requires Searchable(key) && IsKey(k) && k != key
    ensures ParseField(KeyText(k) + post, key) == ParseField(post, key)
  {
    hide ParseField;
    SkipQuoted(k, ":" + post, key);
    SkipPlain(":", post, key);
    assert KeyText(k) + post == "\"" + k + "\"" + (":" + post);
  }

  lemma SkipPair(k: string, v: Value, post: string, key: string)
    requires Searchable(key) && IsKey(k) && k != key && IsValue(v) && AfterValue(post)
    ensures ParseField(PairText(k, v) + post, key) == ParseField(post, key)
  {
    hide ParseField, KeyText;
    if v.Quoted? {
      var value := "\"" + v.text + "\"" + post;
      SkipQuoted(v.text, post, key);
      SkipKey(k, value, key);
      hide IsKey, IsValue, Searchable;
      assert KeyText(k) + value == PairText(k, v) + post;
    } else {
      assert '"' !in v.text;
      SkipPlain(v.text, post, key);
      SkipKey(k, v.text + post, key);
      hide IsKey, IsValue, Searchable;
      assert KeyText(k) + (v.text + post) == PairText(k, v) + post;
    }
  }

  // At a matching key the text up to the end token is copied.
  lemma Hit(open: char, s: string, post: string, key: string)
    requires Searchable(key) && (open == '{' || open == '"')
    requires (if open == '{' then '}' else '"') !in s
    ensures ParseField(KeyText(key) + [open] + s + [if open == '{' then '}' else '"'] + post, key) == Found(s)
  {
    var c := if open == '{' then '}' else '"';
    var behind := [open] + (s + [c] + post);
    var text := KeyText(key) + behind;
    assert text == KeyText(key) + [open] + s + [c] + post;
    assert Prefix(key) == KeyText(key) && text[|KeyText(key)|..] == behind;
    UpToFirst(s, c, post);
    assert behind[1..] == s + [c] + post;
  }

  lemma HitBare(t: string, post: string, key: string)
    requires Searchable(key)
    ensures ParseField(KeyText(key) + (t + post), key) == Copied(t + post)
  {
    var behind := t + post;
    var text := KeyText(key) + behind;
    assert Prefix(key) == KeyText(key) && text[|KeyText(key)|..] == behind;
  }

  lemma HitPair(v: Value, post: string, key: string)
    requires Searchable(key) && IsValue(v)
    ensures ParseField(PairText(key, v) + post, key) == ValueAt(v, post)
  {
    hide ParseField, KeyText, IsKey;
    if v.Quoted? {
      Hit('"', v.text, post, key);
      assert PairText(key, v) + post == KeyText(key) + ['"'] + v.text + ['"'] + post;
    } else {
      HitBare(v.text, post, key);
      assert PairText(key, v) + post == KeyText(key) + (v.text + post);
    }
  }

  lemma {:induction false} NoBrace(ps: seq<Pair>)
    requires forall p <- ps :: PairOk(p)
    ensures '}' !in PairsText(ps)
  {
    if ps != [] {
      assert PairOk(ps[0]);
      NoBrace(ps[1..]);
    }
  }

  // Pairs, then something that follows a pair.
  lemma {:induction false} InPairs(ps: seq<Pair>, post: string, key: string)
    requires Searchable(key) && AfterValue(post) && forall p <- ps :: PairOk(p)
    ensures ParseField(PairsText(ps) + post, key) ==
            if PairAt(ps, key, post).NotFound? then ParseField(post, key) else PairAt(ps, key, post)
  {
    hide ParseField, PairText, ValueAt, IsKey, IsValue;
    if ps == [] {
      assert PairsText(ps) + post == post;
    } else {
      var k, v := ps[0].key, ps[0].value;
      assert PairOk(ps[0]);
      var rest := PairsText(ps[1..]) + post;
      var behind := Comma(|ps|) + rest;
      assert PairsText(ps) + post == PairText(k, v) + behind;
      if |ps| == 1 { assert ps[1..] == [] && rest == post; }
      if k == key {
        HitPair(v, behind, key);
        ValueIsFound(v, behind);
      } else {
        SkipPair(k, v, behind, key);
        SkipPlain(Comma(|ps|), rest, key);
        InPairs(ps[1..], post, key);
      }
    }
  }

  lemma ValueIsFound(v: Value, behind: string)
    ensures ValueAt(v, behind) != NotFound
  {
  }

  lemma SkipObject(k: string, inner: string, post: string, key: string)
    requires Searchable(key) && IsKey(k) && k != key
    ensures ParseField(KeyText(k) + "{" + inner + "}" + post, key) == ParseField(inner + ("}" + post), key)
  {
    hide ParseField, KeyText;
    var rest := inner + ("}" + post);
    SkipKey(k, "{" + rest, key);
    SkipPlain("{", rest, key);
    hide IsKey, Searchable;
    assert KeyText(k) + "{" + inner == KeyText(k) + ("{" + inner);
    assert KeyText(k) + "{" + inner + "}" + post == KeyText(k) + ("{" + rest);
  }

  lemma InField(f: Field, post: string, key: string)
    requires Searchable(key) && AfterValue(post) && FieldOk(f)
    ensures ParseField(FieldText(f) + post, key) ==
            if FieldAt(f, key, post).NotFound? then ParseField(post, key) else FieldAt(f, key, post)
  {
    hide ParseField, PairText, ValueAt;
    if f.Leaf? {
      if f.key == key {
        HitPair(f.value, post, key);
        ValueIsFound(f.value, post);
      } else {
        SkipPair(f.key, f.value, post, key);
      }
    } else {
      var inner := PairsText(f.pairs);
      if f.key == key {
        NoBrace(f.pairs);
        Hit('{', inner, post, key);
        assert FieldText(f) + post == KeyText(key) + ['{'] + inner + ['}'] + post;
      } else {
        SkipObject(f.key, inner, post, key);
        InPairs(f.pairs, "}" + post, key);
        SkipPlain("}", post, key);
      }
    }
  }

  lemma {:induction false} InFields(fs: seq<Field>, post: string, key: string)
    requires Searchable(key) && AfterValue(post) && forall f <- fs :: FieldOk(f)
    ensures ParseField(FieldsText(fs) + post, key) ==
            if FieldOf(fs, key, post).NotFound? then ParseField(post, key) else FieldOf(fs, key, post)
  {
    hide ParseField, FieldText, FieldAt, FieldOk;
    if fs == [] {
      assert FieldsText(fs) + post == post;
    } else {
      var rest := FieldsText(fs[1..]) + post;
      var behind := Comma(|fs|) + rest;
      assert FieldsText(fs) + post == FieldText(fs[0]) + behind;
      if |fs| == 1 { assert fs[1..] == [] && rest == post; }
      InField(fs[0], behind, key);
      SkipPlain(Comma(|fs|), rest, key);
      InFields(fs[1..], post, key);
    }
  }

  // ---- What that means for the fields ----

  lemma PairsHaveQuotes(ps: seq<Pair>)
    ensures '"' in PairsText(ps) <==> ps != []
  {
    if ps != [] { assert PairsText(ps)[0] == '"'; }
  }

  lemma FieldsHaveQuotes(fs: seq<Field>)
    ensures '"' in FieldsText(fs) <==> fs != []
    ensures Entries(fs) == [] <==> fs == []
  {
    if fs != [] { assert FieldsText(fs)[0] == '"'; }
  }

  lemma ValueReads(k: string, v: Value, behind: string)
    requires IsValue(v) && AfterValue(behind)
    ensures Reads(ValueAt(v, behind), [Entry(k, v.text, v.Bare?)], k, behind)
  {
    if v.Bare? { BareIsMisread(v, behind); }
  }

  // Entries behind the ones that decide do not matter.
  lemma ReadsFirst(r: Extract, a: seq<Entry>, b: seq<Entry>, key: string, next: string, behind: string)
    requires Reads(r, a, key, next) && FirstEntry(a, key).Some?
    requires '"' !in next <==> b == [] && '"' !in behind
    ensures Reads(r, a + b, key, behind)
  {
    FirstAppend(a, b, key);
    RunsPastAppend(a, b, key);
    hide FirstEntry, RunsPast;
  }

  lemma ReadsRest(r: Extract, a: seq<Entry>, b: seq<Entry>, key: string, behind: string)
    requires Reads(r, b, key, behind) && FirstEntry(a, key).None?
    ensures Reads(r, a + b, key, behind)
  {
    FirstAppend(a, b, key);
    RunsPastAppend(a, b, key);
    hide FirstEntry, RunsPast;
  }

  lemma {:induction false} PairsRead(ps: seq<Pair>, key: string, behind: string)
    requires AfterValue(behind) && forall p <- ps :: PairOk(p)
    ensures Reads(PairAt(ps, key, behind), PairEntries(ps), key, behind)
  {
    if ps != [] {
      var v := ps[0].value;
      assert PairOk(ps[0]);
      var rest := PairsText(ps[1..]) + behind;
      var next := Comma(|ps|) + rest;
      var e := Entry(ps[0].key, v.text, v.Bare?);
      PairsHaveQuotes(ps[1..]);
      if |ps| == 1 { assert ps[1..] == [] && rest == behind; }
      assert PairEntries(ps[1..]) == [] <==> ps[1..] == [];
      if e.key == key {
        ValueReads(key, v, next);
        hide ValueAt, Reads;
        ReadsFirst(ValueAt(v, next), [e], PairEntries(ps[1..]), key, next, behind);
      } else {
        PairsRead(ps[1..], key, behind);
        hide Reads;
        ReadsRest(PairAt(ps[1..], key, behind), [e], PairEntries(ps[1..]), key, behind);
      }
    }
  }

  lemma FieldReads(f: Field, key: string, behind: string)
    requires AfterValue(behind) && FieldOk(f)
    ensures Reads(FieldAt(f, key, behind), FieldEntries(f), key, behind)
  {
    if f.Leaf? {
      if f.key == key {
        ValueReads(key, f.value, behind);
      } else {
        assert FirstEntry(FieldEntries(f), key) == FirstEntry([], key) == None;
      }
    } else {
      var e := Entry(f.key, PairsText(f.pairs), false);
      if f.key == key {
        RunsPastAppend([e], PairEntries(f.pairs), key);
        FirstAppend([e], PairEntries(f.pairs), key);
      } else {
        PairsRead(f.pairs, key, "}" + behind);
        CloserIsNoQuote(PairAt(f.pairs, key, "}" + behind), PairEntries(f.pairs), key, behind);
        hide Reads;
        ReadsRest(PairAt(f.pairs, key, "}" + behind), [e], PairEntries(f.pairs), key, behind);
      }
    }
  }

  lemma CloserIsNoQuote(r: Extract, es: seq<Entry>, key: string, behind: string)
    requires Reads(r, es, key, "}" + behind)
    ensures Reads(r, es, key, behind)
  {
    hide FirstEntry, RunsPast;
    assert '"' in behind ==> '"' in "}" + behind;
  }

  lemma {:induction false} FieldsRead(fs: seq<Field>, key: string, behind: string)
    requires AfterValue(behind) && forall f <- fs :: FieldOk(f)
    ensures Reads(FieldOf(fs, key, behind), Entries(fs), key, behind)
  {
    if fs != [] {
      var rest := FieldsText(fs[1..]) + behind;
      var next := Comma(|fs|) + rest;
      FieldsHaveQuotes(fs[1..]);
      if |fs| == 1 { assert fs[1..] == [] && rest == behind; }
      FieldReads(fs[0], key, next);
      FieldsRead(fs[1..], key, behind);
      hide FieldAt, FieldEntries, FieldOk;
      var r := FieldAt(fs[0], key, next);
      if r.NotFound? {
        ReadsRest(FieldOf(fs[1..], key, behind), FieldEntries(fs[0]), Entries(fs[1..]), key, behind);
      } else {
        ReadsFirst(r, FieldEntries(fs[0]), Entries(fs[1..]), key, next, behind);
      }
    }
  }

  // From a compact object the first field with the key in document order is what decides:
  // what is copied is exactly FieldOf, which is nothing if no field has the key, and the text
  // of the field if and only if it is a string or an object. The C loop runs past the end of
  // the text exactly when the field is unquoted and the last of all.
  lemma ExtractionUndoesPrinting(fs: seq<Field>, key: string)
    requires Searchable(key) && forall f <- fs :: FieldOk(f)
    ensures ParseField(Compact(fs), key) == FieldOf(fs, key, "}")
    ensures var r, e := ParseField(Compact(fs), key), FirstEntry(Entries(fs), key);
      && (r.NotFound? <==> e.None?)
      && (e.Some? ==> (r == Found(e.value.text) <==> !e.value.bare))
      && (r.Unterminated? <==> RunsPast(Entries(fs), key))
  {
    FieldsRead(fs, key, "}");
    CompactReads(fs, key);
    hide FieldOf, FirstEntry, RunsPast, ParseField, Compact;
  }

  lemma CompactReads(fs: seq<Field>, key: string)
    requires Searchable(key) && forall f <- fs :: FieldOk(f)
    ensures ParseField(Compact(fs), key) == FieldOf(fs, key, "}")
  {
    TooShort([], Prefix(key));
    assert ParseField([], key) == NotFound;
    hide FieldOf, ParseField, FieldsText;
    SkipPlain("{", FieldsText(fs) + "}", key);
    assert Compact(fs) == "{" + (FieldsText(fs) + "}");
    InFields(fs, "}", key);
    SkipPlain("}", [], key);
    assert "}" + [] == "}";
  }

  // ---- Nested extraction ----

  // What create_device and token_cmd print of a response: a field of its "data", unless
  // is_error finds an "error" first, of which it also looks up the "message". Unterminated
  // stands for any of these searches running past the end.
  function DataField(response: string, key: string): Extract {
    match ParseField(response, "error")
    case Unterminated => Unterminated
    case Found(error) => if ParseField(error, "message").Unterminated? then Unterminated else NotFound
    case NotFound =>
      var data := ParseField(response, "data");
      if data.Found? then ParseField(data.text, key) else data
  }

  // From a response without an error whose first "data" is an object, the first inner field
  // with the key decides, whatever other fields with that key the response has: a string is
  // taken, and the reader runs past the end exactly for an unquoted last one.
  lemma InnerFieldFound(fs: seq<Field>, ps: seq<Pair>, key: string)
    requires Searchable(key) && forall f <- fs :: FieldOk(f)
    requires forall p <- ps :: PairOk(p)
    requires FirstEntry(Entries(fs), "error").None?
    requires FirstEntry(Entries(fs), "data") == Some(Entry("data", PairsText(ps), false))
    ensures var r, e := DataField(Compact(fs), key), FirstEntry(PairEntries(ps), key);
      && (r.NotFound? <==> e.None?)
      && (e.Some? ==> (r == Found(e.value.text) <==> !e.value.bare))
      && (r.Unterminated? <==> RunsPast(PairEntries(ps), key))
  {
    KnownKeys();
    hide Searchable, ParseField, FirstEntry, RunsPast, FieldOf, Entries, PairEntries, PairsText, Compact;
    ExtractionUndoesPrinting(fs, "error");
    ExtractionUndoesPrinting(fs, "data");
    InnerReads(ps, key);
  }

  // From a response that has an error no data is taken. With an error object the reader runs
  // past the end exactly for an unquoted last message.
  lemma ErrorHidesData(fs: seq<Field>, ps: seq<Pair>, key: string)
    requires forall f <- fs :: FieldOk(f)
    requires forall p <- ps :: PairOk(p)
    requires FirstEntry(Entries(fs), "error").Some?
    ensures !DataField(Compact(fs), key).Found?
    ensures FirstEntry(Entries(fs), "error") == Some(Entry("error", PairsText(ps), false)) ==>
      DataField(Compact(fs), key) == if RunsPast(PairEntries(ps), "message") then Unterminated else NotFound
  {
    KnownKeys();
    hide Searchable, ParseField, FirstEntry, RunsPast, FieldOf, Entries, PairEntries, PairsText, Compact;
    ExtractionUndoesPrinting(fs, "error");
    InnerReads(ps, "message");
  }

  lemma KnownKeys()
    ensures Searchable("error") && Searchable("data") && Searchable("message")
  {
  }

  lemma InnerReads(ps: seq<Pair>, key: string)
    requires Searchable(key) && forall p <- ps :: PairOk(p)
    ensures Reads(ParseField(PairsText(ps), key), PairEntries(ps), key, [])
  {
    InPairs(ps, [], key);
    PairsRead(ps, key, []);
    TooShort([], Prefix(key));
    hide PairAt, FirstEntry, RunsPast;
    assert PairsText(ps) + [] == PairsText(ps);
  }

  // ---- Keys too long for the prefix buffer ----

  lemma Overrun(key: string, c: char, w: string, post: string)
    requires c != '{' && '"' !in w
    ensures ParseField("{" + (Prefix(key) + ([c] + (w + ['"'] + post))), key) == Found(w)
  {
    var p := Prefix(key);
    var rest := [c] + (w + ['"'] + post);
    var text := "{" + (p + rest);
    assert p[0] == '"' && text[0] == '{';
    SameStart(p, text, 0);
    assert text[1..] == p + rest && (p + rest)[|p|..] == rest;
    assert After(p + rest, p) == Some(rest);
    assert After(text, p) == After(p + rest, p);
    hide After, Prefix;
    UpToFirst(w, '"', post);
    assert rest[1..] == w + ['"'] + post;
  }

  // What is read at a key that the prefix cuts short, whatever its value.
  function Misread(key: string): string
    requires |key| + 3 > PREFIX_MAX
  {
    if |key| + 2 == PREFIX_MAX then "" else if |key| + 1 == PREFIX_MAX then ":" else key[PREFIX_MAX..]
  }

  function MisreadStart(key: string): char
    requires |key| + 3 > PREFIX_MAX
  {
    if |key| + 2 == PREFIX_MAX then ':' else if |key| + 1 == PREFIX_MAX then '"' else key[PREFIX_MAX - 1]
  }

  // The text of a one-field object behind its brace, split where the prefix ends.
  lemma OverlongSplit(key: string, tail: string) returns (post: string)
    requires |key| + 3 > PREFIX_MAX
    ensures KeyText(key) + ("\"" + tail) == Prefix(key) + ([MisreadStart(key)] + (Misread(key) + ['"'] + post))
  {
    var q := KeyText(key) + ("\"" + tail);
    var p := Prefix(key);
    assert q[..|p|] == p && q == p + q[|p|..];
    if |key| + 2 == PREFIX_MAX {
      post := tail;
      assert q[|p|..] == [':'] + ([] + ['"'] + tail);
    } else if |key| + 1 == PREFIX_MAX {
      post := tail;
      assert q[|p|..] == ['"'] + (":" + ['"'] + tail);
    } else {
      post := ":\"" + tail;
      assert q[|p|..] == [key[PREFIX_MAX - 1]] + (key[PREFIX_MAX..] + ['"'] + post);
    }
  }

  lemma OverlongKeyMisread(key: string, value: string)
    requires IsKey(key) && |key| + 3 > PREFIX_MAX
    ensures ParseField(Compact([Leaf(key, Quoted(value))]), key) == Found(Misread(key))
  {
    hide ParseField, Prefix, Misread, MisreadStart, KeyText, IsKey, Compact;
    var tail := value + "\"}";
    var post := OverlongSplit(key, tail);
    MisreadIsPlain(key);
    Overrun(key, MisreadStart(key), Misread(key), post);
    OneLeafText(key, value);
  }

  lemma MisreadIsPlain(key: string)
    requires IsKey(key) && |key| + 3 > PREFIX_MAX
    ensures '"' !in Misread(key) && MisreadStart(key) != '{'
  {
  }

  lemma OneLeafText(key: string, value: string)
    ensures Compact([Leaf(key, Quoted(value))]) == "{" + (KeyText(key) + ("\"" + (value + "\"}")))
  {
    hide KeyText;
    assert FieldsText([Leaf(key, Quoted(value))][1..]) == [];
    assert PairText(key, Quoted(value)) + [] + [] + "}" == KeyText(key) + ("\"" + (value + "\"}"));
  }

  ghost predicate ReadsEveryObject(key: string) {
    forall fs: seq<Field> :: (forall f <- fs :: FieldOk(f)) ==> ParseField(Compact(fs), key) == FieldOf(fs, key, "}")
  }

  // Extraction is right on every object exactly when the prefix fits its buffer.
  lemma RightIffKeyFits(key: string)
    requires IsKey(key)
    ensures ReadsEveryObject(key) <==> |key| <= 252
  {
    hide ReadsEveryObject;
    if |key| + 3 <= PREFIX_MAX { FittingKeyReads(key); } else { OverlongKeyMisreadsOne(key); }
  }

  lemma FittingKeyReads(key: string)
    requires Searchable(key)
    ensures ReadsEveryObject(key)
  {
    hide ParseField, FieldOf, Compact, FieldOk, Searchable;
    forall fs: seq<Field> | forall f <- fs :: FieldOk(f)
      ensures ParseField(Compact(fs), key) == FieldOf(fs, key, "}")
    {
      CompactReads(fs, key);
    }
  }

  lemma LeafIsField(key: string)
    requires IsKey(key) && |key| + 3 > PREFIX_MAX
    ensures FieldOk(Leaf(key, Quoted(Misread(key) + "x")))
  {
  }

  lemma OverlongKeyMisreadsOne(key: string)
    requires IsKey(key) && |key| + 3 > PREFIX_MAX
    ensures !ReadsEveryObject(key)
  {
    hide ParseField, FieldOf, Compact, FieldOk, Misread, IsKey;
    var value := Misread(key) + "x";
    var fs := [Leaf(key, Quoted(value))];
    LeafIsField(key);
    OverlongKeyMisread(key, value);
    OneLeaf(key, value);
    assert ParseField(Compact(fs), key) != FieldOf(fs, key, "}");
  }

  lemma OneLeaf(key: string, value: string)
    ensures FieldOf([Leaf(key, Quoted(value))], key, "}") == Found(value)
  {
  }
}
