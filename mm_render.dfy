// The two renderers of the memory-map tool: `generate` sections emit a C
// header with one address and one size definition per selected region;
// `substitute` sections replace `{{name.ADDRESS}}` / `{{name.SIZE}}`
// placeholders in a template, after applying an alias table.
module MmRender {
  import opened Wrappers
  import opened MmLiterals
  import opened MmMap

  datatype RenderError =
    | MissingOption(key: string)        // KeyError on a required option
    | UnsupportedFormat(path: string)   // output suffix other than .h / .hpp
    | NoMatch(pattern: string)          // a region pattern that selects nothing
    | BadAliasRow(row: string)          // a row that is not exactly two words
    | UnknownAlias(name: string)        // KeyError on an alias source
    | MissingTemplate(path: string)     // the template file cannot be read

  /** What a `generate` section leaves behind: the file contents if it was opened, and the error that stopped it. */
  datatype Output = Output(file: Option<string>, error: Option<RenderError>)

  // ------------------------------------------------------ string helpers

  predicate NoSpace(w: string) {
    forall k :: 0 <= k < |w| ==> !IsSpace(w[k])
  }

  /** The longest prefix without white space. */
  function WordPrefix(s: string): (w: string)
    ensures |w| <= |s| && w == s[..|w|] && NoSpace(w)
    ensures |w| == |s| || IsSpace(s[|w|])
    decreases |s|
  {
    if s == [] || IsSpace(s[0]) then []
    else
      var rest := WordPrefix(s[1..]);
      assert s[1..][..|rest|] == s[1..|rest| + 1];
      [s[0]] + rest
  }

  /** Python's `str.split()` without arguments: the maximal runs of non-space characters. */
  function Words(s: string): (r: seq<string>)
    ensures forall k :: 0 <= k < |r| ==> r[k] != [] && NoSpace(r[k])
    decreases |s|
  {
    if s == [] then []
    else if IsSpace(s[0]) then Words(s[1..])
    else
      var w := WordPrefix(s);
      [w] + Words(s[|w|..])
  }

  /** A word followed by white space or by nothing is the whole prefix `WordPrefix` takes. */
  lemma WordPrefixOfWord(w: string, rest: string)
    requires NoSpace(w) && (rest == [] || IsSpace(rest[0]))
    ensures WordPrefix(w + rest) == w
  {
    var s := w + rest;
    assert s[..|w|] == w;
  }

  /**
   * `str.split()` undoes a join with single spaces: words that are non-empty
   * and hold no white space come back as they were.
   */
  lemma {:induction false} WordsOfJoin(ws: seq<string>)
    requires forall k :: 0 <= k < |ws| ==> ws[k] != [] && NoSpace(ws[k])
    ensures Words(JoinWith(ws, " ")) == ws
    decreases |ws|
  {
    if |ws| == 1 {
      WordPrefixOfWord(ws[0], []);
      assert ws[0] + [] == ws[0];
      assert ws[0][|ws[0]|..] == [];
    } else if |ws| > 1 {
      var rest := JoinWith(ws[1..], " ");
      var s := ws[0] + " " + rest;
      assert s == ws[0] + (" " + rest);
      WordPrefixOfWord(ws[0], " " + rest);
      assert !IsSpace(s[0]) by { assert s[0] == ws[0][0]; }
      assert s[|ws[0]|..] == " " + rest;
      assert (" " + rest)[1..] == rest;
      WordsOfJoin(ws[1..]);
      assert Words(s) == [ws[0]] + ws[1..];
    }
  }

  function JoinWith(parts: seq<string>, sep: string): string
    decreases |parts|
  {
    if parts == [] then ""
    else if |parts| == 1 then parts[0]
    else parts[0] + sep + JoinWith(parts[1..], sep)
  }

  /** The index of the first occurrence of `c` at or after `k`. */
  function IndexFrom(s: string, c: char, k: nat): (r: Option<nat>)
    ensures r.Some? ==> k <= r.value < |s| && s[r.value] == c && forall i :: k <= i < r.value ==> s[i] != c
    ensures r.None? ==> forall i :: k <= i < |s| ==> s[i] != c
    decreases |s| - k
  {
    if k >= |s| then None else if s[k] == c then Some(k) else IndexFrom(s, c, k + 1)
  }

  /** Python's `str.split("\n")`: the pieces between newlines, empty ones included. */
  function Lines(s: string): (r: seq<string>)
    ensures |r| >= 1
    ensures forall k :: 0 <= k < |r| ==> '\n' !in r[k]
    decreases |s|
  {
    match IndexFrom(s, '\n', 0)
    case None => [s]
    case Some(i) => [s[..i]] + Lines(s[i + 1..])
  }

  /** Splitting on newlines loses nothing: joining the pieces with newlines gives the text back. */
  lemma {:induction false} LinesJoin(s: string)
    ensures JoinWith(Lines(s), "\n") == s
    decreases |s|
  {
    match IndexFrom(s, '\n', 0)
    case None =>
    case Some(i) =>
      LinesJoin(s[i + 1..]);
      assert Lines(s) == [s[..i]] + Lines(s[i + 1..]);
      assert s == s[..i] + "\n" + s[i + 1..];
  }

  /** `name.replace(".", "_")`. */
  function Sanitize(name: string): (r: string)
    ensures |r| == |name| && '.' !in r
  {
    seq(|name|, k requires 0 <= k < |name| => if name[k] == '.' then '_' else name[k])
  }

  /** Every dot becomes an underscore and nothing else changes, so the symbol holds no dot. */
  lemma SanitizeShape(name: string)
    ensures |Sanitize(name)| == |name| && '.' !in Sanitize(name)
    ensures forall k :: 0 <= k < |name| ==> Sanitize(name)[k] == (if name[k] == '.' then '_' else name[k])
  {
  }

  function Spaces(k: nat): string {
    if k == 0 then "" else " " + Spaces(k - 1)
  }

  lemma {:induction false} SpacesShape(k: nat)
    ensures |Spaces(k)| == k && forall i :: 0 <= i < k ==> Spaces(k)[i] == ' '
  {
    if k > 0 { SpacesShape(k - 1); }
  }

  /** `s.ljust(w)`: `s` followed by spaces up to `w` characters, or `s` itself when it is not shorter. */
  function LJust(s: string, w: nat): string {
    if |s| >= w then s else s + Spaces(w - |s|)
  }

  /** The padded text starts with `s`, is at least `w` long, and is padded with spaces only. */
  lemma LJustShape(s: string, w: nat)
    ensures |LJust(s, w)| == (if |s| >= w then |s| else w)
    ensures LJust(s, w)[..|s|] == s && forall k :: |s| <= k < |LJust(s, w)| ==> LJust(s, w)[k] == ' '
  {
    if |s| < w { SpacesShape(w - |s|); }
  }

  // ------------------------------------------------------ glob patterns

  /**
   * The closing bracket of a character class, given the pattern text after
   * `[`: a leading `!` negates and a `]` right after it (or at the start)
   * is an ordinary member. Without a closing bracket `[` is literal.
   */
  function ClassClose(p: string): (r: Option<nat>)
    ensures r.Some? ==> r.value < |p| && p[r.value] == ']'
  {
    var j0 := if |p| > 0 && p[0] == '!' then 1 else 0;
    var j1 := if j0 < |p| && p[j0] == ']' then j0 + 1 else j0;
    IndexFrom(p, ']', j1)
  }

  /** Membership in the items of a class: single characters and ranges `a-z` (an empty range matches nothing). */
  function InItems(items: string, c: char): bool
    decreases |items|
  {
    if items == [] then false
    else if |items| >= 3 && items[1] == '-' then (items[0] <= c <= items[2]) || InItems(items[3..], c)
    else items[0] == c || InItems(items[1..], c)
  }

  function InClass(body: string, c: char): bool {
    if |body| > 0 && body[0] == '!' then !InItems(body[1..], c) else InItems(body, c)
  }

  predicate Meta(c: char) {
    c == '*' || c == '?' || c == '['
  }

  /**
   * `fnmatch.fnmatchcase` on POSIX: `*` matches any text, `?` any single
   * character, `[...]` a character class, everything else itself; the whole
   * name must match.
   */
  function FnMatch(p: string, s: string): bool
    decreases |p| + |s|
  {
    if p == [] then s == []
    else if p[0] == '*' then FnMatch(p[1..], s) || (s != [] && FnMatch(p, s[1..]))
    else if p[0] == '?' then s != [] && FnMatch(p[1..], s[1..])
    else if p[0] == '[' && ClassClose(p[1..]).Some? then
      var j := ClassClose(p[1..]).value;
      s != [] && InClass(p[1..j + 1], s[0]) && FnMatch(p[j + 2..], s[1..])
    else s != [] && s[0] == p[0] && FnMatch(p[1..], s[1..])
  }

  /** A pattern without wildcards matches exactly the name it spells. */
  lemma {:induction false} LiteralPattern(p: string, s: string)
    requires forall k :: 0 <= k < |p| ==> !Meta(p[k])
    ensures FnMatch(p, s) <==> s == p
    decreases |p|
  {
    if p != [] {
      assert forall k :: 0 <= k < |p[1..]| ==> !Meta(p[1..][k]) by {
        forall k | 0 <= k < |p[1..]| ensures !Meta(p[1..][k]) { assert p[1..][k] == p[k + 1]; }
      }
      if s != [] {
        LiteralPattern(p[1..], s[1..]);
        if s[0] == p[0] && s[1..] == p[1..] { assert s == [s[0]] + s[1..]; assert p == [p[0]] + p[1..]; }
      }
    }
  }

  /** A lone `*` selects every name. */
  lemma {:induction false} StarMatchesAll(s: string)
    ensures FnMatch("*", s)
    decreases |s|
  {
    if s != [] {
      StarMatchesAll(s[1..]);
    }
  }

  /** A literal prefix followed by `*` selects exactly the names that start with the prefix. */
  lemma {:induction false} PrefixPattern(p: string, s: string)
    requires forall k :: 0 <= k < |p| ==> !Meta(p[k])
    ensures FnMatch(p + "*", s) <==> |p| <= |s| && s[..|p|] == p
    decreases |p|
  {
    if p == [] {
      assert p + "*" == "*";
      StarMatchesAll(s);
    } else {
      var q := p + "*";
      assert q[0] == p[0] && q[1..] == p[1..] + "*";
      assert forall k :: 0 <= k < |p[1..]| ==> !Meta(p[1..][k]) by {
        forall k | 0 <= k < |p[1..]| ensures !Meta(p[1..][k]) { assert p[1..][k] == p[k + 1]; }
      }
      if s != [] {
        PrefixPattern(p[1..], s[1..]);
        if |p| <= |s| {
          assert s[..|p|] == [s[0]] + s[1..][..|p| - 1];
          assert p == [p[0]] + p[1..];
        }
      }
    }
  }

  // ------------------------------------------------------ name ordering

  /** Python's string `<`: lexicographic by code point. */
  predicate Less(a: string, b: string)
    decreases |a|
  {
    if a == [] then b != []
    else if b == [] then false
    else if a[0] != b[0] then a[0] < b[0]
    else Less(a[1..], b[1..])
  }

  lemma {:induction false} LessIrreflexive(a: string)
    ensures !Less(a, a)
    decreases |a|
  {
    if a != [] { LessIrreflexive(a[1..]); }
  }

  lemma {:induction false} LessTransitive(a: string, b: string, c: string)
    requires Less(a, b) && Less(b, c)
    ensures Less(a, c)
    decreases |a|
  {
    if a != [] && b != [] && c != [] && a[0] == b[0] && b[0] == c[0] {
      LessTransitive(a[1..], b[1..], c[1..]);
    }
  }

  lemma {:induction false} LessTotal(a: string, b: string)
    requires a != b
    ensures Less(a, b) || Less(b, a)
    decreases |a|
  {
    if a != [] && b != [] && a[0] == b[0] {
      assert a == [a[0]] + a[1..] && b == [b[0]] + b[1..];
      LessTotal(a[1..], b[1..]);
    }
  }

  lemma LessAsymmetric(a: string, b: string)
    requires Less(a, b)
    ensures !Less(b, a)
  {
    if Less(b, a) { LessTransitive(a, b, a); LessIrreflexive(a); }
  }

  predicate StrictlySorted(r: seq<string>) {
    forall i, j :: 0 <= i < j < |r| ==> Less(r[i], r[j])
  }

  function Elements(r: seq<string>): set<string> {
    set k | 0 <= k < |r| :: r[k]
  }

  lemma ElementsCons(x: string, r: seq<string>)
    ensures Elements([x] + r) == {x} + Elements(r)
  {
    var c := [x] + r;
    forall y | y in Elements(c) ensures y in {x} + Elements(r) {
      var k :| 0 <= k < |c| && c[k] == y;
      if k > 0 { assert r[k - 1] == y; }
    }
    forall y | y in Elements(r) ensures y in Elements(c) {
      var k :| 0 <= k < |r| && r[k] == y;
      assert c[k + 1] == y;
    }
    assert c[0] == x;
  }

  lemma SortedTail(r: seq<string>)
    requires StrictlySorted(r) && r != []
    ensures StrictlySorted(r[1..]) && r == [r[0]] + r[1..]
    ensures forall k :: 0 <= k < |r[1..]| ==> Less(r[0], r[1..][k])
  {
    var t := r[1..];
    forall i, j | 0 <= i < j < |t| ensures Less(t[i], t[j]) { assert t[i] == r[i + 1] && t[j] == r[j + 1]; }
    forall k | 0 <= k < |t| ensures Less(r[0], t[k]) { assert t[k] == r[k + 1]; }
  }

  lemma SortedCons(x: string, t: seq<string>)
    requires StrictlySorted(t) && forall k :: 0 <= k < |t| ==> Less(x, t[k])
    ensures StrictlySorted([x] + t)
  {
    var c := [x] + t;
    forall i, j | 0 <= i < j < |c| ensures Less(c[i], c[j]) {
      assert c[j] == t[j - 1];
      if i > 0 { assert c[i] == t[i - 1]; }
    }
  }

  /** Insert a name into a strictly sorted sequence (a name already present is not repeated). */
  function InsertSorted(r: seq<string>, x: string): (out: seq<string>)
    requires StrictlySorted(r)
    ensures StrictlySorted(out) && Elements(out) == Elements(r) + {x}
    decreases |r|
  {
    if r == [] then
      ElementsCons(x, []);
      [x]
    else if r[0] == x then
      ElementsCons(r[0], r[1..]);
      SortedTail(r);
      r
    else if Less(x, r[0]) then
      SortedTail(r);
      forall k | 0 <= k < |r| ensures Less(x, r[k]) { if k > 0 { LessTransitive(x, r[0], r[k]); } }
      SortedCons(x, r);
      ElementsCons(x, r);
      [x] + r
    else
      LessTotal(x, r[0]);
      SortedTail(r);
      var t := InsertSorted(r[1..], x);
      forall k | 0 <= k < |t| ensures Less(r[0], t[k]) {
        assert t[k] in Elements(t);
      }
      SortedCons(r[0], t);
      ElementsCons(r[0], t);
      ElementsCons(r[0], r[1..]);
      [r[0]] + t
  }

  /** A strictly sorted sequence is determined by its elements. */
  lemma {:induction false} SortedUnique(a: seq<string>, b: seq<string>)
    requires StrictlySorted(a) && StrictlySorted(b) && Elements(a) == Elements(b)
    ensures a == b
    decreases |a|
  {
    NonEmptyElements(a);
    NonEmptyElements(b);
    if a != [] && b != [] {
      assert a[0] in Elements(b) && b[0] in Elements(a);
      var i :| 0 <= i < |b| && b[i] == a[0];
      var j :| 0 <= j < |a| && a[j] == b[0];
      if a[0] != b[0] {
        assert i > 0 && j > 0;
        assert Less(b[0], b[i]) && Less(a[0], a[j]);
        LessAsymmetric(a[0], b[0]);
        assert false;
      }
      var a', b' := a[1..], b[1..];
      assert StrictlySorted(a') by {
        forall x, y | 0 <= x < y < |a'| ensures Less(a'[x], a'[y]) { assert a'[x] == a[x + 1] && a'[y] == a[y + 1]; }
      }
      assert StrictlySorted(b') by {
        forall x, y | 0 <= x < y < |b'| ensures Less(b'[x], b'[y]) { assert b'[x] == b[x + 1] && b'[y] == b[y + 1]; }
      }
      assert Elements(a') == Elements(b') by {
        forall y | y in Elements(a') ensures y in Elements(b') {
          var k :| 0 <= k < |a'| && a'[k] == y;
          assert Less(a[0], a[k + 1]);
          LessIrreflexive(y);
          assert y in Elements(b);
          var m :| 0 <= m < |b| && b[m] == y;
          assert m > 0;
          assert b'[m - 1] == y;
        }
        forall y | y in Elements(b') ensures y in Elements(a') {
          var k :| 0 <= k < |b'| && b'[k] == y;
          assert Less(b[0], b[k + 1]);
          LessIrreflexive(y);
          assert y in Elements(a);
          var m :| 0 <= m < |a| && a[m] == y;
          assert m > 0;
          assert a'[m - 1] == y;
        }
      }
      SortedUnique(a', b');
      assert a == [a[0]] + a' && b == [b[0]] + b';
    }
  }

  lemma NonEmptyElements(a: seq<string>)
    ensures a != [] ==> a[0] in Elements(a)
  {
  }

  lemma {:induction false} SortedExists(s: set<string>)
    ensures exists r :: StrictlySorted(r) && Elements(r) == s
    decreases |s|
  {
    if s == {} {
      assert StrictlySorted([]) && Elements([]) == s;
    } else {
      var x :| x in s;
      SortedExists(s - {x});
      var r :| StrictlySorted(r) && Elements(r) == s - {x};
      var out := InsertSorted(r, x);
      assert StrictlySorted(out) && Elements(out) == s;
    }
  }

  /** Python's `sorted(names)` of a set: its unique strictly increasing enumeration. */
  ghost function SortedOf(s: set<string>): (r: seq<string>)
    ensures StrictlySorted(r) && Elements(r) == s
  {
    SortedExists(s);
    var r :| StrictlySorted(r) && Elements(r) == s;
    r
  }

  // ------------------------------------------------------ dispatch

  datatype SectionKind = GenerateSection | SubstituteSection | Ignored

  function StartsWith(s: string, prefix: string): bool {
    |prefix| <= |s| && s[..|prefix|] == prefix
  }

  /** Output-spec sections are told apart by the prefix of their name; the default (empty) name and any other name are skipped. */
  function KindOf(name: string): (k: SectionKind)
    ensures k == GenerateSection <==> StartsWith(name, "generate")
    ensures k == SubstituteSection <==> StartsWith(name, "substitute") && !StartsWith(name, "generate")
  {
    if name == "" then Ignored
    else if StartsWith(name, "generate") then GenerateSection
    else if StartsWith(name, "substitute") then SubstituteSection
    else Ignored
  }

  // ------------------------------------------------------ generate

  function Header(inputName: string): string {
    "#pragma once\n\n/* This file was automatically generated from " + inputName + ". Manual editing is discouraged. */\n\n"
  }

  /** One `#define`: the symbol left-justified to 32 columns, a space, the value. */
  function Define(symbol: string, value: string): (line: string)
    ensures |line| == 8 + (if |symbol| >= 32 then |symbol| else 32) + 1 + |value| + 1
    ensures line[..8] == "#define " && line[8..8 + |symbol|] == symbol
    ensures forall k :: 8 + |symbol| <= k < |line| - |value| - 1 ==> line[k] == ' '
    ensures line[|line| - |value| - 1..] == value + "\n"
  {
    LJustShape(symbol, 32);
    "#define " + LJust(symbol, 32) + " " + value + "\n"
  }

  /** The rendered value of a number: `0x{v:08X}`. */
  function HexValue(v: int): string {
    "0x" + Hex08(v)
  }

  /** The two definitions of one region. */
  function RegionDefines(r: Region): string {
    Define(Sanitize(r.name) + "_ADDRESS", HexValue(r.start)) + Define(Sanitize(r.name) + "_SIZE", HexValue(r.size))
  }

  /** The text parts joined in order. */
  function Concat(parts: seq<string>): string
    decreases |parts|
  {
    if parts == [] then "" else Concat(parts[..|parts| - 1]) + parts[|parts| - 1]
  }

  /** The definitions of the given regions, in order. */
  function Defines(picked: seq<Region>): string {
    Concat(seq(|picked|, k requires 0 <= k < |picked| => RegionDefines(picked[k])))
  }

  /** The region each name denotes (the first region of that name). */
  function Picked(rs: seq<Region>, names: seq<string>): (picked: seq<Region>)
    requires forall k :: 0 <= k < |names| ==> Find(rs, names[k]).Some?
    ensures |picked| == |names| && forall k :: 0 <= k < |names| ==> picked[k] in rs && picked[k].name == names[k]
  {
    seq(|names|, k requires 0 <= k < |names| && Find(rs, names[k]).Some? => rs[Find(rs, names[k]).value])
  }

  /** The names of the arena matched by one pattern (`fnmatch.filter`). */
  function Matches(rs: seq<Region>, pattern: string): (m: set<string>)
    ensures forall n :: n in m ==> Find(rs, n).Some?
  {
    set k | 0 <= k < |rs| && FnMatch(pattern, rs[k].name) :: rs[k].name
  }

  /** Union of the matches of the patterns in order; the first pattern that matches nothing is an error. */
  function Matched(rs: seq<Region>, patterns: seq<string>): (r: Result<set<string>, RenderError>)
    ensures r.Ok? ==> forall n :: n in r.value ==> Find(rs, n).Some?
    ensures r.Ok? ==> r.value == set p, n | p in patterns && n in Matches(rs, p) :: n
    ensures r.Ok? <==> forall k :: 0 <= k < |patterns| ==> Matches(rs, patterns[k]) != {}
    decreases |patterns|
  {
    if patterns == [] then Ok({})
    else
      var init := patterns[..|patterns| - 1];
      var last := patterns[|patterns| - 1];
      assert patterns == init + [last];
      match Matched(rs, init)
      case Err(e) => Err(e)
      case Ok(m) =>
        var found := Matches(rs, last);
        if found == {} then Err(NoMatch(last)) else Ok(m + found)
  }

  /**
   * `PurePath(path).name`: the final component, trailing slashes and `.`
   * components dropped as pathlib drops them when it parses the path.
   */
  function FinalName(path: string): (name: string)
    ensures '/' !in name
    decreases |path|
  {
    if path != [] && path[|path| - 1] == '/' then FinalName(path[..|path| - 1])
    else if |path| >= 2 && path[|path| - 2] == '/' && path[|path| - 1] == '.' then FinalName(path[..|path| - 1])
    else if path == "." then ""
    else
      var slash := LastIndex(path, '/');
      if slash.Some? then path[slash.value + 1..] else path
  }

  /** The final component of a bare name, and of that name behind any directory, is the name itself. */
  lemma FinalNameOfComponent(dir: string, n: string)
    requires n != [] && n != "." && '/' !in n
    ensures FinalName(n) == n
    ensures FinalName(dir + "/" + n) == n
  {
    var p := dir + "/" + n;
    assert p[|p| - 1] == n[|n| - 1];
    if |n| >= 2 {
      assert p[|p| - 2] == n[|n| - 2];
    } else {
      assert n == [n[0]];
    }
    assert p[|dir|] == '/';
    assert forall i :: |dir| < i < |p| ==> p[i] == n[i - |dir| - 1];
    assert p[|dir| + 1..] == n;
  }

  /** `PurePath(path).suffix`: the final component's last `.` suffix, unless the dot leads or ends the component. */
  function PathSuffix(path: string): (r: string)
    ensures r == [] || (|r| >= 2 && r[0] == '.' && '.' !in r[1..] && '/' !in r)
  {
    var name := FinalName(path);
    var dot := LastIndex(name, '.');
    if dot.Some? && 0 < dot.value < |name| - 1 then
      assert forall i :: 0 <= i < |name[dot.value..]| ==> name[dot.value..][i] == name[dot.value + i];
      name[dot.value..]
    else ""
  }

  /** A trailing slash or `.` component does not change the suffix: `out.h/` is a header path. */
  lemma TrailingSlashSuffix(path: string)
    ensures PathSuffix(path + "/") == PathSuffix(path)
    ensures path != [] ==> PathSuffix(path + "/.") == PathSuffix(path)
  {
    assert (path + "/")[..|path|] == path;
    assert (path + "/.")[..|path| + 1] == path + "/";
  }

  lemma HeaderPathWithSlash()
    ensures PathSuffix("out.h/") == ".h"
  {
    var p := "out.h";
    TrailingSlashSuffix(p);
    assert p + "/" == "out.h/";
    assert LastIndex(p, '/').None?;
    assert LastIndex(p, '.') == Some(3) by {
      assert p[..|p| - 1] == "out.";
    }
    assert p[3..] == ".h";
  }

  function LastIndex(s: string, c: char): (r: Option<nat>)
    ensures r.Some? ==> r.value < |s| && s[r.value] == c && forall i :: r.value < i < |s| ==> s[i] != c
    ensures r.None? ==> forall i :: 0 <= i < |s| ==> s[i] != c
    decreases |s|
  {
    if s == [] then None
    else if s[|s| - 1] == c then Some(|s| - 1)
    else LastIndex(s[..|s| - 1], c)
  }

  /** A `generate` section: the contents the output header file ends up with, and the error that stopped it. */
  ghost function GenerateSpec(rs: seq<Region>, inputName: string, options: map<string, string>): Output {
    if "path" !in options then Output(None, Some(MissingOption("path")))
    else if PathSuffix(options["path"]) != ".h" && PathSuffix(options["path"]) != ".hpp" then
      Output(None, Some(UnsupportedFormat(options["path"])))
    else if "regions" !in options then Output(Some(Header(inputName)), Some(MissingOption("regions")))
    else match Matched(rs, Words(options["regions"]))
      case Err(e) => Output(Some(Header(inputName)), Some(e))
      case Ok(m) => Output(Some(Header(inputName) + Defines(Picked(rs, SortedOf(m)))), None)
  }

  /** One more pattern after an error keeps the error. */
  lemma MatchedErrorStep(rs: seq<Region>, patterns: seq<string>, e: RenderError)
    requires patterns != [] && Matched(rs, patterns[..|patterns| - 1]) == Err(e)
    ensures Matched(rs, patterns) == Err(e)
  {
  }

  lemma {:induction false} MatchedErrorSticks(rs: seq<Region>, patterns: seq<string>, i: nat, e: RenderError)
    requires i <= |patterns| && Matched(rs, patterns[..i]) == Err(e)
    ensures Matched(rs, patterns) == Err(e)
    decreases |patterns|
  {
    if i == |patterns| {
      assert patterns[..i] == patterns;
    } else {
      var init := patterns[..|patterns| - 1];
      assert init[..i] == patterns[..i];
      MatchedErrorSticks(rs, init, i, e);
      MatchedErrorStep(rs, patterns, e);
    }
  }

  /** The pattern loop: each pattern's matches are added to the selection, and a pattern matching nothing stops it. */
  method MatchAll(rs: seq<Region>, patterns: seq<string>) returns (r: Result<set<string>, RenderError>)
    ensures r == Matched(rs, patterns)
  {
    var matched: set<string> := {};
    var i := 0;
    while i < |patterns|
      invariant 0 <= i <= |patterns|
      invariant Matched(rs, patterns[..i]) == Ok(matched)
    {
      assert patterns[..i + 1][..i] == patterns[..i];
      var found := Matches(rs, patterns[i]);
      if found == {} {
        MatchedErrorSticks(rs, patterns, i + 1, NoMatch(patterns[i]));
        return Err(NoMatch(patterns[i]));
      }
      matched := matched + found;
      i := i + 1;
    }
    assert patterns[..i] == patterns;
    r := Ok(matched);
  }

  /** `sorted(matched)` for names of the arena: each matched region name is inserted into a sorted sequence. */
  method SortNames(rs: seq<Region>, matched: set<string>) returns (names: seq<string>)
    requires forall n :: n in matched ==> Find(rs, n).Some?
    ensures names == SortedOf(matched)
  {
    names := [];
    var k := 0;
    while k < |rs|
      invariant 0 <= k <= |rs|
      invariant StrictlySorted(names)
      invariant Elements(names) == set j | 0 <= j < k && rs[j].name in matched :: rs[j].name
    {
      if rs[k].name in matched {
        names := InsertSorted(names, rs[k].name);
      }
      k := k + 1;
    }
    assert Elements(names) == matched by {
      forall n | n in matched ensures n in Elements(names) {
        var j := Find(rs, n).value;
        assert rs[j].name == n;
      }
    }
    SortedUnique(names, SortedOf(matched));
  }

  /** Appends each part to the file, in order. */
  method WriteAll(parts: seq<string>, file: string) returns (out: string)
    ensures out == file + Concat(parts)
  {
    out := file;
    var w := 0;
    while w < |parts|
      invariant 0 <= w <= |parts|
      invariant out == file + Concat(parts[..w])
    {
      assert parts[..w + 1][..w] == parts[..w];
      out := out + parts[w];
      w := w + 1;
    }
    assert parts[..w] == parts;
  }

  /** The selected regions' definitions, in sorted name order, after the text written so far. */
  method WriteRegions(rs: seq<Region>, matched: set<string>, file: string) returns (out: string)
    requires forall n :: n in matched ==> Find(rs, n).Some?
    ensures out == file + Defines(Picked(rs, SortedOf(matched)))
  {
    var names := SortNames(rs, matched);
    var picked := Picked(rs, names);
    out := WriteAll(seq(|picked|, k requires 0 <= k < |picked| => RegionDefines(picked[k])), file);
  }

  /**
   * The `generate` block: the header comment is written first, the region
   * patterns are expanded one by one into a set of names, and the selected
   * regions are written in sorted name order.
   */
  method Generate(rs: seq<Region>, inputName: string, options: map<string, string>) returns (out: Output)
    ensures out == GenerateSpec(rs, inputName, options)
  {
    if "path" !in options {
      return Output(None, Some(MissingOption("path")));
    }
    var suffix := PathSuffix(options["path"]);
    if suffix != ".h" && suffix != ".hpp" {
      return Output(None, Some(UnsupportedFormat(options["path"])));
    }
    var file := Header(inputName);
    if "regions" !in options {
      return Output(Some(file), Some(MissingOption("regions")));
    }
    var m := MatchAll(rs, Words(options["regions"]));
    if m.Err? {
      return Output(Some(file), Some(m.error));
    }
    var matched := m.value;
    file := WriteRegions(rs, matched, file);
    out := Output(Some(file), None);
  }

  // ------------------------------------------------------ substitute

  /** The table of names that placeholders may use: region names and aliases, in insertion order. */
  type Table = seq<(string, Region)>

  function Lookup(t: Table, name: string): (r: Option<Region>)
    ensures r.None? <==> forall k :: 0 <= k < |t| ==> t[k].0 != name
    decreases |t|
  {
    if t == [] then None else if t[0].0 == name then Some(t[0].1) else Lookup(t[1..], name)
  }

  /** Dictionary assignment: an existing key keeps its position, a new key is appended. */
  function Assign(t: Table, name: string, r: Region): (out: Table)
    ensures Lookup(out, name) == Some(r)
    ensures forall n :: n != name ==> Lookup(out, n) == Lookup(t, n)
    decreases |t|
  {
    if t == [] then [(name, r)]
    else if t[0].0 == name then [(name, r)] + t[1..]
    else [t[0]] + Assign(t[1..], name, r)
  }

  /** `{**regions}`: every region under its own name, in declaration order. */
  function RegionTable(rs: seq<Region>): (t: Table)
    ensures |t| == |rs| && forall k :: 0 <= k < |rs| ==> t[k] == (rs[k].name, rs[k])
  {
    seq(|rs|, k requires 0 <= k < |rs| => (rs[k].name, rs[k]))
  }

  /** One alias row `to from`: `from` is looked up in the table built so far. */
  function AliasRow(t: Table, row: string): (r: Result<Table, RenderError>)
    ensures r.Ok? ==> var w := Words(row); |w| == 2 && Lookup(r.value, w[0]) == Lookup(t, w[1])
  {
    var w := Words(row);
    if |w| != 2 then Err(BadAliasRow(row))
    else match Lookup(t, w[1])
      case None => Err(UnknownAlias(w[1]))
      case Some(region) => Ok(Assign(t, w[0], region))
  }

  /** All alias rows in order; empty rows are skipped. */
  function ApplyAliases(t: Table, rows: seq<string>): Result<Table, RenderError>
    decreases |rows|
  {
    if rows == [] then Ok(t)
    else
      var init := rows[..|rows| - 1];
      var row := rows[|rows| - 1];
      match ApplyAliases(t, init)
      case Err(e) => Err(e)
      case Ok(t') => if row == "" then Ok(t') else AliasRow(t', row)
  }

  /** Whether `t` occurs in `s`. */
  ghost predicate Occurs(s: string, t: string) {
    exists k :: OccursAt(s, t, k)
  }

  predicate OccursAt(s: string, t: string, k: int) {
    0 <= k && k + |t| <= |s| && s[k..k + |t|] == t
  }

  /** Python's `s.replace(pat, rep)` for a non-empty `pat`: every non-overlapping occurrence, left to right. */
  function ReplaceAll(s: string, pat: string, rep: string): (r: string)
    requires pat != []
    ensures rep == pat ==> r == s
    decreases |s|
  {
    if |s| < |pat| then s
    else if s[..|pat|] == pat then
      assert s == s[..|pat|] + s[|pat|..];
      rep + ReplaceAll(s[|pat|..], pat, rep)
    else [s[0]] + ReplaceAll(s[1..], pat, rep)
  }

  /** Text without the placeholder is left as it is. */
  lemma {:induction false} ReplaceAbsent(s: string, pat: string, rep: string)
    requires pat != [] && !Occurs(s, pat)
    ensures ReplaceAll(s, pat, rep) == s
    decreases |s|
  {
    if |s| >= |pat| {
      assert !OccursAt(s, pat, 0);
      assert s[0..0 + |pat|] == s[..|pat|];
      forall k | 0 <= k && k + |pat| <= |s[1..]| ensures !OccursAt(s[1..], pat, k) {
        assert s[1..][k..k + |pat|] == s[k + 1..k + 1 + |pat|];
        assert !OccursAt(s, pat, k + 1);
      }
      ReplaceAbsent(s[1..], pat, rep);
      assert s == [s[0]] + s[1..];
    }
  }

  /** An occurrence at the very start is replaced. */
  lemma ReplaceLeading(pat: string, rep: string, rest: string)
    requires pat != []
    ensures ReplaceAll(pat + rest, pat, rep) == rep + ReplaceAll(rest, pat, rep)
  {
    assert (pat + rest)[..|pat|] == pat;
    assert (pat + rest)[|pat|..] == rest;
  }

  /** Text that holds no `{` cannot start a placeholder, so replacement passes over it unchanged. */
  lemma {:induction false} ReplaceAfterPlain(u: string, rest: string, pat: string, rep: string)
    requires pat != [] && pat[0] == '{' && '{' !in u
    ensures ReplaceAll(u + rest, pat, rep) == u + ReplaceAll(rest, pat, rep)
    decreases |u|
  {
    if u == [] {
      assert u + rest == rest;
    } else {
      var s := u + rest;
      assert s[0] == u[0];
      if |s| < |pat| {
        assert ReplaceAll(rest, pat, rep) == rest;
      } else {
        assert s[..|pat|][0] == u[0];
        assert s[1..] == u[1..] + rest;
        ReplaceAfterPlain(u[1..], rest, pat, rep);
        assert u == [u[0]] + u[1..];
      }
    }
  }

  /** Zero-padded hexadecimal digits hold no braces. */
  lemma PaddedDigitsPlain(n: nat, w: nat)
    ensures Braceless(ZeroPad(HexDigits(n), w))
  {
    var h := HexDigits(n);
    HexDigitsValue(n);
    assert DigitValue('{') == 36 && DigitValue('}') == 36;
    var z := ZeroPad(h, w);
    forall k | 0 <= k < |z| ensures z[k] != '{' && z[k] != '}' {
      if |h| < w && k >= w - |h| { assert z[k] == h[k - (w - |h|)]; }
    }
  }

  /** Where the pattern does not start, replacement keeps the first character and goes on after it. */
  lemma ReplaceSkipsFirst(s: string, pat: string, rep: string)
    requires pat != [] && s != [] && (|s| < |pat| || s[..|pat|] != pat)
    ensures ReplaceAll(s, pat, rep) == [s[0]] + ReplaceAll(s[1..], pat, rep)
  {
    if |s| < |pat| {
      assert s == [s[0]] + s[1..];
    }
  }

  /** Text in which no placeholder can begin does not start with one, whatever follows it. */
  lemma NoOpeningAhead(u: string, rest: string, pat: string)
    requires |pat| >= 2 && pat[0] == '{' && pat[1] == '{' && u != [] && OpensNothing(u)
    ensures |u + rest| < |pat| || (u + rest)[..|pat|] != pat
  {
    var s := u + rest;
    if |s| >= |pat| {
      if u[0] == '{' {
        assert |u| > 1 && u[1] != '{';
        assert s[..|pat|][1] == u[1];
      } else {
        assert s[..|pat|][0] == u[0];
      }
    }
  }

  /** The rest of text in which no placeholder can begin is such text too. */
  lemma OpensNothingTail(u: string)
    requires u != [] && OpensNothing(u)
    ensures OpensNothing(u[1..])
  {
    forall k | 0 <= k < |u[1..]| - 1 ensures u[1..][k] == '{' ==> u[1..][k + 1] != '{' {
      assert u[1..][k] == u[k + 1] && u[1..][k + 1] == u[k + 2];
    }
  }

  /** Sequence bookkeeping for one character kept in front of a replaced tail. */
  lemma KeptFirst(u: string, rest: string, whole: string, tail: string, after: string)
    requires u != []
    requires whole == [(u + rest)[0]] + tail && tail == u[1..] + after
    ensures whole == u + after
  {
    assert (u + rest)[0] == u[0];
    assert u == [u[0]] + u[1..];
  }

  /** Replacement passes over text in which no placeholder can begin. */
  lemma {:induction false} ReplaceAfterText(u: string, rest: string, pat: string, rep: string)
    requires |pat| >= 2 && pat[0] == '{' && pat[1] == '{' && OpensNothing(u)
    ensures ReplaceAll(u + rest, pat, rep) == u + ReplaceAll(rest, pat, rep)
    decreases |u|
  {
    if u == [] {
      assert u + rest == rest;
    } else {
      NoOpeningAhead(u, rest, pat);
      ReplaceSkipsFirst(u + rest, pat, rep);
      OpensNothingTail(u);
      ReplaceAfterText(u[1..], rest, pat, rep);
      assert (u + rest)[1..] == u[1..] + rest;
      KeptFirst(u, rest, ReplaceAll(u + rest, pat, rep), ReplaceAll(u[1..] + rest, pat, rep), ReplaceAll(rest, pat, rep));
    }
  }

  /** A rendered value holds no braces. */
  lemma HexValuePlain(v: int)
    ensures Braceless(HexValue(v))
  {
    var n: nat := if v >= 0 then v else -v;
    var w := if v >= 0 then 8 else 7;
    var z := ZeroPad(HexDigits(n), w);
    PaddedDigitsPlain(n, w);
    var p := if v >= 0 then "0x" else "0x-";
    assert HexValue(v) == p + z;
    assert Braceless(p);
  }

  /**
   * A template seen as plain text and placeholders. Plain text may hold
   * single braces but no `{{` and does not end in `{`; a placeholder names a
   * brace-free name and one of the two fields.
   */
  datatype Piece = Plain(text: string) | Hole(name: string, field: string)

  predicate Braceless(s: string) {
    '{' !in s && '}' !in s
  }

  predicate IsField(f: string) {
    f == "ADDRESS" || f == "SIZE"
  }

  /** Text in which no `{{` can begin, even with more text after it. */
  predicate OpensNothing(u: string) {
    && (forall k :: 0 <= k < |u| - 1 ==> u[k] == '{' ==> u[k + 1] != '{')
    && (u != [] ==> u[|u| - 1] != '{')
  }

  predicate WellFormedPiece(p: Piece) {
    match p
    case Plain(u) => OpensNothing(u)
    case Hole(n, f) => Braceless(n) && IsField(f)
  }

  predicate WellFormedPieces(ps: seq<Piece>) {
    forall k :: 0 <= k < |ps| ==> WellFormedPiece(ps[k])
  }

  function PieceText(p: Piece): string {
    match p
    case Plain(u) => u
    case Hole(n, f) => Token(n, f)
  }

  /** The template text the pieces spell. */
  function Join(ps: seq<Piece>): string
    decreases |ps|
  {
    if ps == [] then "" else PieceText(ps[0]) + Join(ps[1..])
  }

  /** The value a table entry gives a field: its start for `ADDRESS`, its size for `SIZE`. */
  function FieldValue(r: Region, f: string): string {
    if f == "ADDRESS" then HexValue(r.start) else HexValue(r.size)
  }

  /** What a piece becomes: a placeholder of a name in the table is its value, anything else stays. */
  function Rendered(t: Table, p: Piece): Piece {
    if p.Hole? && Lookup(t, p.name).Some? then Plain(FieldValue(Lookup(t, p.name).value, p.field)) else p
  }

  function RenderedAll(t: Table, ps: seq<Piece>): (r: seq<Piece>)
    ensures |r| == |ps|
  {
    seq(|ps|, k requires 0 <= k < |ps| => Rendered(t, ps[k]))
  }

  /** The pieces with the placeholders of one name and field filled with `rep`. */
  function Filled(ps: seq<Piece>, n: string, f: string, rep: string): (r: seq<Piece>)
    ensures |r| == |ps|
  {
    seq(|ps|, k requires 0 <= k < |ps| => if ps[k] == Hole(n, f) then Plain(rep) else ps[k])
  }

  /** Two placeholder texts of brace-free names: one is a prefix of the other followed by text only if they are equal. */
  lemma HoleTextsDiffer(u: string, v: string, rest: string)
    requires '}' !in u && '}' !in v
    requires |("{{" + u + "}}") + rest| >= |"{{" + v + "}}"|
    requires (("{{" + u + "}}") + rest)[..|"{{" + v + "}}"|] == "{{" + v + "}}"
    ensures u == v
  {
    var s := ("{{" + u + "}}") + rest;
    var k := "{{" + v + "}}";
    var i := 2 + |u|;
    var j := 2 + |v|;
    assert s[i] == '}' && k[j] == '}';
    assert forall c :: 2 <= c < i ==> s[c] == u[c - 2];
    assert forall c :: 2 <= c < j ==> k[c] == v[c - 2];
    assert forall c :: 0 <= c < |k| ==> s[c] == k[c];
    assert s[2..i] == u;
    assert k[2..j] == v;
  }
  /** A name and field are determined by the text `name.field`. */
  lemma FieldTextsDiffer(m: string, g: string, n: string, f: string)
    requires IsField(g) && IsField(f) && m + "." + g == n + "." + f
    ensures m == n && g == f
  {
    var x := m + "." + g;
    assert x[|x| - 1] == g[|g| - 1] && x[|x| - 1] == (n + "." + f)[|x| - 1];
    assert (n + "." + f)[|x| - 1] == f[|f| - 1];
    assert g == f;
    assert x[..|m|] == m && (n + "." + f)[..|n|] == n;
  }

  /** A character that does not start an occurrence is copied. */
  lemma ReplaceCopies(c: char, x: string, pat: string, rep: string)
    requires pat != []
    requires |[c] + x| >= |pat| ==> ([c] + x)[..|pat|] != pat
    ensures ReplaceAll([c] + x, pat, rep) == [c] + ReplaceAll(x, pat, rep)
  {
    assert ([c] + x)[1..] == x;
  }

  /** The placeholder of another name or field does not start with this token. */
  lemma NotThisHole(m: string, g: string, n: string, f: string, rest: string)
    requires Braceless(m) && Braceless(n) && IsField(g) && IsField(f) && (m, g) != (n, f)
    ensures var s := Token(m, g) + rest; |s| >= |Token(n, f)| ==> s[..|Token(n, f)|] != Token(n, f)
  {
    var s := Token(m, g) + rest;
    var u := m + "." + g;
    assert Token(m, g) == "{{" + u + "}}";
    assert Token(n, f) == "{{" + (n + "." + f) + "}}";
    if |s| >= |Token(n, f)| && s[..|Token(n, f)|] == Token(n, f) {
      HoleTextsDiffer(u, n + "." + f, rest);
      FieldTextsDiffer(m, g, n, f);
    }
  }

  /** Replacement passes over `{{` and brace-free text after it when no occurrence starts there. */
  lemma ReplacePassesOpening(w: string, rest: string, pat: string, rep: string)
    requires |pat| >= 2 && pat[0] == '{' && pat[1] == '{' && w != [] && '{' !in w
    requires var s := "{{" + w + rest; |s| >= |pat| ==> s[..|pat|] != pat
    ensures ReplaceAll("{{" + w + rest, pat, rep) == "{{" + w + ReplaceAll(rest, pat, rep)
  {
    var s2 := w + rest;
    var s1 := ['{'] + s2;
    assert "{{" + w + rest == ['{'] + s1;
    ReplaceCopies('{', s1, pat, rep);
    assert |s1| >= |pat| ==> s1[..|pat|][1] == w[0];
    ReplaceCopies('{', s2, pat, rep);
    ReplaceAfterPlain(w, rest, pat, rep);
  }

  /** Replacement passes over the placeholder of another name or field. */
  lemma ReplaceOtherHole(m: string, g: string, n: string, f: string, rest: string, rep: string)
    requires Braceless(m) && Braceless(n) && IsField(g) && IsField(f) && (m, g) != (n, f)
    ensures ReplaceAll(Token(m, g) + rest, Token(n, f), rep) == Token(m, g) + ReplaceAll(rest, Token(n, f), rep)
  {
    var w := m + "." + g + "}}";
    assert Token(m, g) + rest == "{{" + w + rest;
    NotThisHole(m, g, n, f, rest);
    assert '{' !in w;
    ReplacePassesOpening(w, rest, Token(n, f), rep);
    assert Token(m, g) == "{{" + w;
  }

  lemma WellFormedTail(ps: seq<Piece>)
    requires ps != [] && WellFormedPieces(ps)
    ensures WellFormedPiece(ps[0]) && WellFormedPieces(ps[1..])
  {
    forall k | 0 <= k < |ps[1..]| ensures WellFormedPiece(ps[1..][k]) { assert ps[1..][k] == ps[k + 1]; }
  }

  /** Replacing one name's field in the text of the pieces fills exactly those placeholders. */
  lemma {:induction false} ReplaceInPieces(ps: seq<Piece>, n: string, f: string, rep: string)
    requires WellFormedPieces(ps) && Braceless(n) && IsField(f) && Braceless(rep)
    ensures ReplaceAll(Join(ps), Token(n, f), rep) == Join(Filled(ps, n, f, rep))
    decreases |ps|
  {
    var pat := Token(n, f);
    if ps == [] {
      assert Filled(ps, n, f, rep) == [];
    } else {
      WellFormedTail(ps);
      ReplaceInPieces(ps[1..], n, f, rep);
      assert Filled(ps, n, f, rep)[1..] == Filled(ps[1..], n, f, rep);
      var rest := Join(ps[1..]);
      match ps[0]
      case Plain(u) =>
        assert pat[0] == '{' && pat[1] == '{';
        ReplaceAfterText(u, rest, pat, rep);
      case Hole(m, g) =>
        if (m, g) == (n, f) {
          ReplaceLeading(pat, rep, rest);
          assert Filled(ps, n, f, rep)[0] == Plain(rep);
        } else {
          ReplaceOtherHole(m, g, n, f, rest, rep);
        }
    }
  }

  /** A table lookup after one more entry: the earlier entries come first. */
  lemma LookupSnoc(t: Table, name: string)
    requires t != []
    ensures Lookup(t, name) == if Lookup(t[..|t| - 1], name).Some? then Lookup(t[..|t| - 1], name)
                               else if t[|t| - 1].0 == name then Some(t[|t| - 1].1) else None
    decreases |t|
  {
    if |t| > 1 {
      assert t[1..][..|t[1..]| - 1] == t[..|t| - 1][1..];
      LookupSnoc(t[1..], name);
    }
  }

  /**
   * In a template of plain text and placeholders, replacement for every
   * table entry turns each placeholder of a name the table holds into that
   * name's value and leaves everything else as it was.
   */
  lemma {:induction false} PlaceholdersRendered(t: Table, ps: seq<Piece>)
    requires WellFormedPieces(ps) && forall k :: 0 <= k < |t| ==> Braceless(t[k].0)
    ensures SubstituteAll(t, Join(ps)) == Join(RenderedAll(t, ps))
    ensures WellFormedPieces(RenderedAll(t, ps))
    decreases |t|
  {
    if t == [] {
      assert RenderedAll(t, ps) == ps;
    } else {
      var init := t[..|t| - 1];
      var (name, r) := t[|t| - 1];
      PlaceholdersRendered(init, ps);
      var mid := RenderedAll(init, ps);
      HexValuePlain(r.start);
      HexValuePlain(r.size);
      assert Braceless(name);
      ReplaceInPieces(mid, name, "ADDRESS", HexValue(r.start));
      var mid2 := Filled(mid, name, "ADDRESS", HexValue(r.start));
      assert WellFormedPieces(mid2) by {
        forall k | 0 <= k < |mid2| ensures WellFormedPiece(mid2[k]) { assert WellFormedPiece(mid[k]); }
      }
      ReplaceInPieces(mid2, name, "SIZE", HexValue(r.size));
      forall k | 0 <= k < |ps| ensures Filled(mid2, name, "SIZE", HexValue(r.size))[k] == RenderedAll(t, ps)[k] {
        if ps[k].Hole? { LookupSnoc(t, ps[k].name); }
      }
      assert Filled(mid2, name, "SIZE", HexValue(r.size)) == RenderedAll(t, ps);
      forall k | 0 <= k < |ps| ensures WellFormedPiece(RenderedAll(t, ps)[k]) {
        assert WellFormedPiece(ps[k]);
        if ps[k].Hole? && Lookup(t, ps[k].name).Some? {
          var q := Lookup(t, ps[k].name).value;
          HexValuePlain(q.start);
          HexValuePlain(q.size);
        }
      }
    }
  }

  function Token(name: string, field: string): string {
    "{{" + name + "." + field + "}}"
  }

  /** Replace the two placeholders of every table entry in table order. */
  function SubstituteAll(t: Table, contents: string): string
    decreases |t|
  {
    if t == [] then contents
    else
      var init := t[..|t| - 1];
      var (name, r) := t[|t| - 1];
      var c := SubstituteAll(init, contents);
      ReplaceAll(ReplaceAll(c, Token(name, "ADDRESS"), HexValue(r.start)), Token(name, "SIZE"), HexValue(r.size))
  }

  /** A `substitute` section: aliases, then placeholder replacement over the template text. */
  function SubstituteSpec(rs: seq<Region>, options: map<string, string>, files: map<string, string>): (r: Result<string, RenderError>)
  {
    if "in" !in options then Err(MissingOption("in"))
    else if "out" !in options then Err(MissingOption("out"))
    else
      var aliases := if "aliases" in options then options["aliases"] else "";
      match ApplyAliases(RegionTable(rs), Lines(aliases))
      case Err(e) => Err(e)
      case Ok(t) =>
        if options["in"] !in files then Err(MissingTemplate(options["in"]))
        else Ok(SubstituteAll(t, files[options["in"]]))
  }

  lemma {:induction false} AliasesErrorSticks(t: Table, rows: seq<string>, i: nat, e: RenderError)
    requires i <= |rows| && ApplyAliases(t, rows[..i]) == Err(e)
    ensures ApplyAliases(t, rows) == Err(e)
    decreases |rows| - i
  {
    if i < |rows| {
      assert rows[..i + 1][..i] == rows[..i];
      AliasesErrorSticks(t, rows, i + 1, e);
    } else {
      assert rows[..i] == rows;
    }
  }

  /** The alias loop: each non-empty row rebinds a name in a copy of the table, and the first unknown source stops it. */
  method ApplyAliasRows(t: Table, rows: seq<string>) returns (r: Result<Table, RenderError>)
    ensures r == ApplyAliases(t, rows)
  {
    var table := t;
    var i := 0;
    while i < |rows|
      invariant 0 <= i <= |rows|
      invariant ApplyAliases(t, rows[..i]) == Ok(table)
    {
      assert rows[..i + 1][..i] == rows[..i];
      var row := rows[i];
      if row != "" {
        var step := AliasRow(table, row);
        if step.Err? {
          AliasesErrorSticks(t, rows, i + 1, step.error);
          return Err(step.error);
        }
        table := step.value;
      }
      i := i + 1;
    }
    assert rows[..i] == rows;
    r := Ok(table);
  }

  /** The replacement loop: for each entry in table order, the text is rewritten with its address and size. */
  method ReplacePlaceholders(table: Table, text: string) returns (contents: string)
    ensures contents == SubstituteAll(table, text)
  {
    contents := text;
    var k := 0;
    while k < |table|
      invariant 0 <= k <= |table|
      invariant contents == SubstituteAll(table[..k], text)
    {
      var (name, region) := table[k];
      assert table[..k + 1][..k] == table[..k];
      contents := ReplaceAll(contents, Token(name, "ADDRESS"), HexValue(region.start));
      contents := ReplaceAll(contents, Token(name, "SIZE"), HexValue(region.size));
      k := k + 1;
    }
    assert table[..k] == table;
  }

  /**
   * The `substitute` block: the alias rows update a copy of the region
   * table; then, for each entry in table order, the template text is
   * rewritten with its address and size.
   */
  method Substitute(rs: seq<Region>, options: map<string, string>, files: map<string, string>) returns (r: Result<string, RenderError>)
    ensures r == SubstituteSpec(rs, options, files)
  {
    if "in" !in options {
      return Err(MissingOption("in"));
    }
    if "out" !in options {
      return Err(MissingOption("out"));
    }
    var aliases := if "aliases" in options then options["aliases"] else "";
    var aliased := ApplyAliasRows(RegionTable(rs), Lines(aliases));
    if aliased.Err? {
      return Err(aliased.error);
    }
    if options["in"] !in files {
      return Err(MissingTemplate(options["in"]));
    }
    var contents := ReplacePlaceholders(aliased.value, files[options["in"]]);
    r := Ok(contents);
  }

  /** A template that mentions no placeholder of any known name comes out unchanged. */
  lemma {:induction false} UnknownPlaceholdersKept(t: Table, contents: string)
    requires forall k :: 0 <= k < |t| ==> !Occurs(contents, Token(t[k].0, "ADDRESS")) && !Occurs(contents, Token(t[k].0, "SIZE"))
    ensures SubstituteAll(t, contents) == contents
    decreases |t|
  {
    if t != [] {
      var init := t[..|t| - 1];
      UnknownPlaceholdersKept(init, contents);
      var (name, r) := t[|t| - 1];
      ReplaceAbsent(contents, Token(name, "ADDRESS"), HexValue(r.start));
      ReplaceAbsent(contents, Token(name, "SIZE"), HexValue(r.size));
    }
  }

  /** An alias row makes the rep name render exactly like its source. */
  lemma AliasRendersLikeSource(t: Table, to: string, from: string)
    requires to != [] && NoSpace(to) && from != [] && NoSpace(from) && Lookup(t, from).Some?
    ensures AliasRow(t, to + " " + from).Ok?
    ensures Lookup(AliasRow(t, to + " " + from).value, to) == Lookup(t, from)
  {
    WordsOfJoin([to, from]);
    assert JoinWith([to, from], " ") == to + " " + JoinWith([from], " ");
  }
}
