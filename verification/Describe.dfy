/** Parsing of describe lines into ports whose dependencies are still names. */
module Describe {
  import opened CStrings
  import opened Options
  import opened Graphs
  import opened Ports

  /** What a describe line says. */
  datatype Record = Record(pkgname: CString, portdir: CString, prefix: CString, comment: CString, pkgdescr: CString,
                           maintainer: CString, categories: CString, deps: Five<seq<CString>>, www: CString)

  /** Why make_index stops. EmptyName stands for the undefined read of name[-1] on an empty list token. */
  datatype Failure = Unterminated | Corrupt | EmptyName | NoEntry(from: CString, name: CString) | Circular(pkgname: CString)

  datatype Result<+T> = Ok(value: T) | Err(failure: Failure)

  function Count(s: string, c: char): nat {
    if s == [] then 0 else (if s[0] == c then 1 else 0) + Count(s[1..], c)
  }

  /** The pieces of s between separators: always at least one. */
  function Split(s: CString, c: char): (parts: seq<CString>)
    ensures parts != []
  {
    if s == [] then [[]]
    else if s[0] == c then [[]] + Split(s[1..], c)
    else var parts := Split(s[1..], c); [[s[0]] + parts[0]] + parts[1..]
  }

  function Join(parts: seq<CString>, c: char): CString
    requires c != '\0'
  {
    if parts == [] then []
    else if |parts| == 1 then parts[0]
    else parts[0] + [c] + Join(parts[1..], c)
  }

  /** Splitting at the first separator. */
  lemma {:induction false} SplitFirst(s: CString, c: char, i: nat)
    requires c != '\0' && i <= |s| && c !in s[..i] && (i < |s| ==> s[i] == c)
    ensures Split(s, c) == if i == |s| then [s] else [s[..i]] + Split(s[i + 1..], c)
  {
    if s == [] {
    } else if i == 0 {
      assert s[..0] == [];
    } else {
      assert s[0] in s[..i];
      assert s[1..][..i - 1] == s[..i][1..];
      SplitFirst(s[1..], c, i - 1);
      assert [s[0]] + s[1..][..i - 1] == s[..i];
      if i < |s| {
        assert s[1..][i..] == s[i + 1..];
      } else {
        assert [s[0]] + s[1..] == s;
      }
    }
  }

  /** One more piece than separators. */
  lemma {:induction false} SplitCount(s: CString, c: char)
    ensures |Split(s, c)| == Count(s, c) + 1
  {
    if s != [] {
      SplitCount(s[1..], c);
    }
  }

  /** Joining the pieces gives the string back, and no piece holds the separator. */
  lemma {:induction false} JoinSplit(s: CString, c: char)
    requires c != '\0'
    ensures Join(Split(s, c), c) == s
    ensures forall p :: p in Split(s, c) ==> c !in p
  {
    if s != [] {
      JoinSplit(s[1..], c);
      var parts := Split(s[1..], c);
      if s[0] != c {
        assert |parts| > 1 ==> ([[s[0]] + parts[0]] + parts[1..])[1..] == parts[1..];
      } else {
        assert ([[]] + parts)[1..] == parts;
      }
    }
  }

  /** Splitting a join gives the pieces back, if no piece holds the separator. */
  lemma {:induction false} SplitJoin(parts: seq<CString>, c: char)
    requires c != '\0' && parts != [] && forall p :: p in parts ==> c !in p
    ensures Split(Join(parts, c), c) == parts
  {
    var s := Join(parts, c);
    if |parts| == 1 {
      assert s[..|s|] == s == parts[0];
      SplitFirst(s, c, |s|);
    } else {
      SplitJoin(parts[1..], c);
      assert s[..|parts[0]|] == parts[0] && s[|parts[0]| + 1..] == Join(parts[1..], c);
      SplitFirst(s, c, |parts[0]|);
    }
  }

  /** strsep: cuts str at the first separator; no remainder is left when there is none. */
  method Strsep(str: CString, c: char) returns (tok: CString, rest: Option<CString>)
    requires c != '\0'
    ensures Split(str, c) == [tok] + (if rest.None? then [] else Split(rest.value, c))
  {
    var i := 0;
    while i < |str| && str[i] != c
      invariant i <= |str| && c !in str[..i]
    {
      i := i + 1;
    }
    SplitFirst(str, c, i);
    tok := str[..i];
    rest := if i == |str| then None else Some(str[i + 1..]);
    assert i == |str| ==> str[..i] == str;
  }

  method CountOf(s: CString, c: char) returns (n: nat)
    ensures n == Count(s, c)
  {
    n := 0;
    var i := 0;
    while i < |s|
      invariant i <= |s| && n + Count(s[i..], c) == Count(s, c)
    {
      if s[i] == c {
        n := n + 1;
      }
      i := i + 1;
    }
  }

  /** A list token without one trailing slash. */
  function Strip(tok: CString): CString
    requires tok != []
  {
    if tok[|tok| - 1] == '/' then tok[..|tok| - 1] else tok
  }

  /** The tokens of a list field; an empty field has none. */
  function Tokens(str: CString): seq<CString> {
    if str == [] then [] else Split(str, ' ')
  }

  function StripAll(toks: seq<CString>): (names: seq<CString>)
    requires [] !in toks
    ensures |names| == |toks| && forall k :: 0 <= k < |names| ==> names[k] == Strip(toks[k])
  {
    if toks == [] then [] else [Strip(toks[0])] + StripAll(toks[1..])
  }

  function ParseList(str: CString): Option<seq<CString>> {
    if [] in Tokens(str) then None else Some(StripAll(Tokens(str)))
  }

  /** The block holds these names, unresolved, and nothing more. */
  ghost predicate Names(l: DepList, names: seq<CString>)
    reads l.d
  {
    l.n == |names| == l.d.Length && forall k :: 0 <= k < |names| ==> l.d[k] == Name(names[k])
  }

  /** makelist: counts the tokens, then cuts them off one by one, stripping a trailing slash of each. */
  method MakeList(str: CString) returns (r: Option<DepList>)
    ensures r.Some? <==> ParseList(str).Some?
    ensures r.Some? ==> fresh(r.value.d) && Names(r.value, ParseList(str).value)
  {
    if str == [] {
      var none := new Dep[0];
      return Some(DepList(0, none));
    }
    var n := CountOf(str, ' ');
    n := n + 1;
    SplitCount(str, ' ');
    ghost var toks := Split(str, ' ');
    var d := new Dep[n];
    var i, rest := 0, Some(str);
    while i < n
      invariant i <= n == |toks| && [] !in toks[..i]
      invariant if i < n then rest.Some? && Split(rest.value, ' ') == toks[i..] else rest.None?
      invariant forall k :: 0 <= k < i ==> toks[k] != [] && d[k] == Name(Strip(toks[k]))
    {
      var tok;
      tok, rest := Strsep(rest.value, ' ');
      assert tok == toks[i..][0] == toks[i];
      assert toks[i..][1..] == toks[i + 1..];
      if tok == [] {
        assert toks[i] in toks;
        return None;
      }
      if tok[|tok| - 1] == '/' {
        tok := tok[..|tok| - 1];
      }
      d[i] := Name(tok);
      assert toks[..i + 1] == toks[..i] + [toks[i]];
      i := i + 1;
    }
    assert toks[..n] == toks;
    return Some(DepList(n, d));
  }

  const FIELDS := 13

  function RecordOf(f: seq<CString>, deps: Five<seq<CString>>): Record
    requires |f| == FIELDS
  {
    Record(f[0], f[1], f[2], f[3], f[4], f[5], f[6], deps, f[12])
  }

  /** The five list fields of a line. */
  function ListFields(f: seq<CString>): Five<CString>
    requires |f| == FIELDS
  {
    Five(f[7], f[8], f[9], f[10], f[11])
  }

  /** What a line describes: 13 fields, and no empty token in a list field. */
  function Parse(line: CString): Result<Record> {
    var f := Split(line, '|');
    if |f| != FIELDS then Err(Corrupt)
    else
      var deps := ParseLists(ListFields(f));
      if deps.None? then Err(EmptyName) else Ok(RecordOf(f, deps.value))
  }

  function ParseLists(l: Five<CString>): Option<Five<seq<CString>>> {
    var (e, p, f, b, r) := (ParseList(l.e), ParseList(l.p), ParseList(l.f), ParseList(l.b), ParseList(l.r));
    if e.Some? && p.Some? && f.Some? && b.Some? && r.Some? then
      Some(Five(e.value, p.value, f.value, b.value, r.value))
    else None
  }

  /** p carries what rec says, and its lists are still names, in blocks of their own. */
  ghost predicate Describes(p: Port, rec: Record)
    reads p, p.edep.d, p.pdep.d, p.fdep.d, p.bdep.d, p.rdep.d
  {
    SameText(p, rec) && p.recursed == 0 && AllNames(p.Lists(), rec.deps) && Apart(p.Lists())
  }

  ghost predicate AllNames(l: Five<DepList>, names: Five<seq<CString>>)
    reads l.e.d, l.p.d, l.f.d, l.b.d, l.r.d
  {
    Names(l.e, names.e) && Names(l.p, names.p) && Names(l.f, names.f) && Names(l.b, names.b) && Names(l.r, names.r)
  }

  ghost predicate Apart(l: Five<DepList>) {
    && l.e.d != l.p.d && l.e.d != l.f.d && l.e.d != l.b.d && l.e.d != l.r.d && l.p.d != l.f.d
    && l.p.d != l.b.d && l.p.d != l.r.d && l.f.d != l.b.d && l.f.d != l.r.d && l.b.d != l.r.d
  }

  predicate SameText(p: Port, rec: Record) {
    && p.pkgname == rec.pkgname && p.portdir == rec.portdir && p.prefix == rec.prefix
    && p.comment == rec.comment && p.pkgdescr == rec.pkgdescr && p.maintainer == rec.maintainer
    && p.categories == rec.categories && p.www == rec.www
  }

  /** The next of the fields f, k of which are gone. */
  method NextField(rest: Option<CString>, ghost f: seq<CString>, ghost k: nat)
    returns (tok: CString, rest': Option<CString>)
    requires k < |f| && rest.Some? && Split(rest.value, '|') == f[k..]
    ensures tok == f[k]
    ensures k + 1 < |f| ==> rest'.Some? && Split(rest'.value, '|') == f[k + 1..]
  {
    tok, rest' := Strsep(rest.value, '|');
    assert tok == f[k..][0] && f[k..][1..] == f[k + 1..];
  }

  /** The five list fields of portify, in order. */
  method ListsOf(rest: Option<CString>, ghost f: seq<CString>)
    returns (deps: Option<Five<DepList>>, rest': Option<CString>)
    requires |f| == FIELDS && rest.Some? && Split(rest.value, '|') == f[7..]
    ensures rest'.Some? && Split(rest'.value, '|') == f[12..]
    ensures deps.Some? <==> ParseLists(ListFields(f)).Some?
    ensures deps.Some? ==> fresh(Blocks(deps.value)) && Apart(deps.value)
    ensures deps.Some? ==> AllNames(deps.value, ParseLists(ListFields(f)).value)
  {
    hide Split, ParseList, Names;
    var e, p, fetch, b, r;
    e, rest' := NextField(rest, f, 7);
    var edep := MakeList(e);
    p, rest' := NextField(rest', f, 8);
    var pdep := MakeList(p);
    fetch, rest' := NextField(rest', f, 9);
    var fdep := MakeList(fetch);
    b, rest' := NextField(rest', f, 10);
    var bdep := MakeList(b);
    r, rest' := NextField(rest', f, 11);
    var rdep := MakeList(r);
    if edep.Some? && pdep.Some? && fdep.Some? && bdep.Some? && rdep.Some? {
      deps := Some(Five(edep.value, pdep.value, fdep.value, bdep.value, rdep.value));
    } else {
      deps := None;
    }
  }

  ghost function Blocks(l: Five<DepList>): set<array<Dep>> {
    {l.e.d, l.p.d, l.f.d, l.b.d, l.r.d}
  }

  /** portify: counts the separators, then cuts the fields off in order. */
  method Portify(line: CString) returns (r: Result<Port>)
    ensures r.Ok? <==> Parse(line).Ok?
    ensures r.Ok? ==> fresh(r.value) && fresh(Blocks(r.value.Lists())) && Describes(r.value, Parse(line).value)
    ensures r.Err? ==> r.failure == Parse(line).failure
  {
    hide Split, ParseList, ParseLists, Names;
    var n := CountOf(line, '|');
    ghost var f := Split(line, '|');
    SplitCount(line, '|');
    if n != 12 {
      return Err(Corrupt);
    }
    assert f[0..] == f;
    var rest := Some(line);
    var pkgname, portdir, prefix, comment, pkgdescr, maintainer, categories, www, deps;
    pkgname, rest := NextField(rest, f, 0);
    portdir, rest := NextField(rest, f, 1);
    prefix, rest := NextField(rest, f, 2);
    comment, rest := NextField(rest, f, 3);
    pkgdescr, rest := NextField(rest, f, 4);
    maintainer, rest := NextField(rest, f, 5);
    categories, rest := NextField(rest, f, 6);
    deps, rest := ListsOf(rest, f);
    if deps.None? {
      return Err(EmptyName);
    }
    www, rest := NextField(rest, f, 12);
    var p := new Port(pkgname, portdir, prefix, comment, pkgdescr, maintainer, categories, www, deps.value);
    return Ok(p);
  }

  /** How a dependency is written: its directory and a slash, or its directory, not itself ending in one. */
  ghost predicate SpelledAs(tok: CString, name: CString) {
    tok == name + "/" || (tok == name && tok != [] && tok[|tok| - 1] != '/')
  }

  ghost predicate Spelled(toks: seq<CString>, names: seq<CString>) {
    |toks| == |names| && forall k :: 0 <= k < |toks| ==> ' ' !in toks[k] && SpelledAs(toks[k], names[k])
  }

  /** The field lists these names, separated by spaces. */
  ghost predicate ListsNames(field: CString, names: seq<CString>) {
    exists toks :: Spelled(toks, names) && field == Join(toks, ' ')
  }

  lemma StripExact(tok: CString, name: CString)
    requires tok != []
    ensures Strip(tok) == name <==> SpelledAs(tok, name)
  {
  }

  lemma TokensRestore(str: CString)
    ensures Join(Tokens(str), ' ') == str
    ensures ParseList(str).Some? ==> Spelled(Tokens(str), ParseList(str).value)
  {
    hide Split, Strip, SpelledAs;
    JoinSplit(str, ' ');
    if ParseList(str).Some? {
      var toks, names := Tokens(str), StripAll(Tokens(str));
      forall k | 0 <= k < |toks|
        ensures ' ' !in toks[k] && SpelledAs(toks[k], names[k])
      {
        StripExact(toks[k], names[k]);
      }
    }
  }

  lemma SpelledTokens(toks: seq<CString>, names: seq<CString>)
    requires Spelled(toks, names)
    ensures Tokens(Join(toks, ' ')) == toks && [] !in toks
  {
    hide Split;
    if toks != [] {
      assert toks[0] != [];
      SplitJoin(toks, ' ');
    }
  }

  /** A list field is read as exactly the names it lists. */
  lemma ListExact(field: CString, names: seq<CString>)
    ensures ParseList(field) == Some(names) <==> ListsNames(field, names)
  {
    hide Split, Join, Strip, SpelledAs, Tokens;
    TokensRestore(field);
    if ListsNames(field, names) {
      var toks :| Spelled(toks, names) && field == Join(toks, ' ');
      SpelledTokens(toks, names);
      var read := StripAll(toks);
      forall k | 0 <= k < |toks|
        ensures read[k] == names[k]
      {
        StripExact(toks[k], names[k]);
      }
      assert read == names;
    }
  }

  /** What 13 fields say, one by one. */
  ghost predicate FieldsSay(f: seq<CString>, rec: Record) {
    && |f| == 13
    && rec.pkgname == f[0] && rec.portdir == f[1] && rec.prefix == f[2] && rec.comment == f[3]
    && rec.pkgdescr == f[4] && rec.maintainer == f[5] && rec.categories == f[6]
    && ListsNames(f[7], rec.deps.e) && ListsNames(f[8], rec.deps.p) && ListsNames(f[9], rec.deps.f)
    && ListsNames(f[10], rec.deps.b) && ListsNames(f[11], rec.deps.r)
    && rec.www == f[12]
  }

  /** A line is read as exactly what its 13 fields say. */
  lemma ParseExact(f: seq<CString>, rec: Record)
    requires f != [] && forall k :: 0 <= k < |f| ==> '|' !in f[k]
    ensures Parse(Join(f, '|')) == Ok(rec) <==> FieldsSay(f, rec)
    ensures Parse(Join(f, '|')) == Err(Corrupt) <==> |f| != 13
  {
    hide Split, Join, ParseList, ListsNames;
    SplitJoin(f, '|');
    if |f| == 13 {
      ListExact(f[7], rec.deps.e);
      ListExact(f[8], rec.deps.p);
      ListExact(f[9], rec.deps.f);
      ListExact(f[10], rec.deps.b);
      ListExact(f[11], rec.deps.r);
    }
  }

  /** And nothing of a line that is read is lost: its 13 fields, joined, restore it. */
  lemma ParseRestores(line: CString) returns (f: seq<CString>)
    requires Parse(line).Ok?
    ensures line == Join(f, '|') && (forall k :: 0 <= k < |f| ==> '|' !in f[k]) && FieldsSay(f, Parse(line).value)
  {
    hide Split, Join, FieldsSay, Parse;
    f := Split(line, '|');
    JoinSplit(line, '|');
    ParseExact(f, Parse(line).value);
  }
}
