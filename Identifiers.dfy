/**
 * The text helpers of the query generator: identifier casing (`capitalize`, `decapitalize`,
 * `camelCase`, `lowerCamelCase`), SQL parameter names (`param`, `params`) and the `where`
 * clause of a key lookup.
 *
 * Each helper throws where its JavaScript original reads `s[0]` of an empty string
 * (`undefined.toUpperCase()`); such a throw is `None` here. Casing is ASCII only.
 */
module Identifiers {
  import opened Wrappers

  function Upper(c: char): char {
    if 'a' <= c <= 'z' then (c as int - 32) as char else c
  }

  function Lower(c: char): char {
    if 'A' <= c <= 'Z' then (c as int + 32) as char else c
  }

  /** Casing only moves letters between cases: `_` stays `_` and nothing else becomes `_`. */
  lemma CasingKeepsUnderscore(c: char)
    ensures Upper(c) == '_' <==> c == '_'
    ensures Lower(c) == '_' <==> c == '_'
    ensures Lower(Upper(c)) == Lower(c) && Upper(Lower(c)) == Upper(c)
  {
  }

  /** `s[0].toUpperCase() + s.slice(1)`. */
  function Capitalize(s: string): (r: Option<string>)
    ensures r.None? <==> s == []
    ensures r.Some? ==> |r.value| == |s| && r.value[0] == Upper(s[0]) && r.value[1..] == s[1..]
  {
    if s == [] then None else Some([Upper(s[0])] + s[1..])
  }

  /** `s[0].toLowerCase() + s.slice(1)`. */
  function Decapitalize(s: string): (r: Option<string>)
    ensures r.None? <==> s == []
    ensures r.Some? ==> |r.value| == |s| && r.value[0] == Lower(s[0]) && r.value[1..] == s[1..]
  {
    if s == [] then None else Some([Lower(s[0])] + s[1..])
  }

  lemma CapitalizeIdempotent(s: string)
    requires s != []
    ensures Capitalize(Capitalize(s).value) == Capitalize(s)
  {
    CasingKeepsUnderscore(s[0]);
  }

  /** Lower-casing the first letter undoes capitalising it. */
  lemma DecapitalizeCapitalize(s: string)
    requires s != []
    ensures Decapitalize(Capitalize(s).value) == Decapitalize(s)
  {
    CasingKeepsUnderscore(s[0]);
  }

  /** The number of `_` in `s`. */
  function Count(s: string): nat
  {
    if s == [] then 0 else (if s[0] == '_' then 1 else 0) + Count(s[1..])
  }

  /** `s.split('_')`: the `_`-free segments, one more than there are `_` (`"".split('_')` is `[""]`). */
  function Split(s: string): (parts: seq<string>)
    ensures |parts| == Count(s) + 1
    ensures forall i | 0 <= i < |parts| :: '_' !in parts[i]
  {
    if s == [] then [""]
    else
      var rest := Split(s[1..]);
      if s[0] == '_' then [""] + rest else [[s[0]] + rest[0]] + rest[1..]
  }

  /** `parts.join(sep)`. */
  function Join(parts: seq<string>, sep: string): string
  {
    if |parts| == 0 then ""
    else if |parts| == 1 then parts[0]
    else parts[0] + sep + Join(parts[1..], sep)
  }

  lemma JoinCons(x: string, y: string, t: seq<string>, sep: string)
    ensures Join([x + y] + t, sep) == x + Join([y] + t, sep)
  {
    if t != [] {
      assert ([x + y] + t)[1..] == t == ([y] + t)[1..];
    }
  }

  /** Joining the segments with `_` gives back the string. */
  lemma {:induction false} JoinSplit(s: string)
    ensures Join(Split(s), "_") == s
  {
    if s != [] {
      var rest := Split(s[1..]);
      JoinSplit(s[1..]);
      if s[0] == '_' {
        assert ([""] + rest)[1..] == rest;
      } else {
        JoinCons([s[0]], rest[0], rest[1..], "_");
        assert [rest[0]] + rest[1..] == rest;
      }
    }
  }

  /** A string without `_` followed by `_` and a tail splits into it and the tail's segments. */
  lemma {:induction false} SplitAfterSegment(p: string, t: string)
    requires '_' !in p
    ensures Split(p + "_" + t) == [p] + Split(t)
    ensures Split(p) == [p]
  {
    if p != [] {
      assert (p + "_" + t)[1..] == p[1..] + "_" + t;
      assert p[1..] + "_" + t == p[1..] + ("_" + t);
      SplitAfterSegment(p[1..], t);
      assert [p[0]] + p[1..] == p;
    } else {
      assert p + "_" + t == ['_'] + t;
      assert (['_'] + t)[1..] == t;
    }
  }

  /** Splitting a `_`-join of `_`-free segments gives back the segments. */
  lemma {:induction false} SplitJoin(parts: seq<string>)
    requires parts != []
    requires forall i | 0 <= i < |parts| :: '_' !in parts[i]
    ensures Split(Join(parts, "_")) == parts
  {
    SplitAfterSegment(parts[0], "");
    if |parts| > 1 {
      SplitJoin(parts[1..]);
      SplitAfterSegment(parts[0], Join(parts[1..], "_"));
      assert [parts[0]] + parts[1..] == parts;
    }
  }

  /** The summed length of the parts. */
  function TotalLength(parts: seq<string>): nat
  {
    if parts == [] then 0 else |parts[0]| + TotalLength(parts[1..])
  }

  lemma {:induction false} JoinLength(parts: seq<string>, sep: string)
    requires parts != []
    ensures |Join(parts, sep)| == TotalLength(parts) + (|parts| - 1) * |sep|
  {
    if |parts| > 1 {
      JoinLength(parts[1..], sep);
      assert (|parts| - 1) * |sep| == |sep| + (|parts| - 2) * |sep|;
    } else {
      assert parts[1..] == [];
    }
  }

  /** Joining keeps a character out when no part has it and the separator does not. */
  lemma {:induction false} JoinAvoids(parts: seq<string>, sep: string, c: char)
    requires c !in sep
    requires forall i | 0 <= i < |parts| :: c !in parts[i]
    ensures c !in Join(parts, sep)
  {
    if |parts| > 1 {
      JoinAvoids(parts[1..], sep, c);
    }
  }

  /** Adding a part at the end adds one separator and the part. */
  lemma {:induction false} JoinSnoc(parts: seq<string>, p: string, sep: string)
    requires parts != []
    ensures Join(parts + [p], sep) == Join(parts, sep) + sep + p
  {
    if |parts| == 1 {
      assert (parts + [p])[1..] == [p];
    } else {
      assert (parts + [p])[1..] == parts[1..] + [p];
      JoinSnoc(parts[1..], p, sep);
    }
  }

  /** `xs.map(f)` for a helper `f` that may throw: the first throw ends the map. */
  function MapAll(f: string -> Option<string>, xs: seq<string>): (r: Option<seq<string>>)
    ensures r.None? <==> exists i | 0 <= i < |xs| :: f(xs[i]).None?
    ensures r.Some? ==> |r.value| == |xs| && forall i | 0 <= i < |xs| :: f(xs[i]) == Some(r.value[i])
  {
    if xs == [] then Some([])
    else
      match f(xs[0])
      case None => None
      case Some(y) =>
        match MapAll(f, xs[1..])
        case None => None
        case Some(ys) => Some([y] + ys)
  }

  /**
   * `s.split('_').map(capitalize).join('')`: it throws exactly when some segment is empty, at an
   * end or between two `_`.
   */
  function CamelCase(s: string): (r: Option<string>)
    ensures r.Some? <==> WellSeparated(s)
    ensures r.Some? <==> forall i | 0 <= i < |Split(s)| :: Split(s)[i] != ""
  {
    FirstSegmentEmpty(s);
    LaterSegmentEmpty(s);
    EmptySegmentThrows(Split(s));
    match MapAll(Capitalize, Split(s))
    case None => None
    case Some(caps) => Some(Join(caps, ""))
  }

  /** Two `_` in a row somewhere in `s`. */
  predicate DoubleUnderscore(s: string) {
    exists i | 0 <= i < |s| - 1 :: s[i] == '_' && s[i + 1] == '_'
  }

  lemma DoubleUnderscoreCons(s: string)
    requires s != []
    ensures DoubleUnderscore(s) <==> (|s| >= 2 && s[0] == '_' && s[1] == '_') || DoubleUnderscore(s[1..])
  {
    if DoubleUnderscore(s) {
      var i :| 0 <= i < |s| - 1 && s[i] == '_' && s[i + 1] == '_';
      if i > 0 {
        assert s[1..][i - 1] == '_' && s[1..][i] == '_';
      }
    }
    if DoubleUnderscore(s[1..]) {
      var i :| 0 <= i < |s[1..]| - 1 && s[1..][i] == '_' && s[1..][i + 1] == '_';
      assert s[i + 1] == '_' && s[i + 2] == '_';
    }
  }

  /** No empty segment: not empty, no `_` at either end, never two `_` in a row. */
  predicate WellSeparated(s: string) {
    s != [] && s[0] != '_' && s[|s| - 1] != '_' && !DoubleUnderscore(s)
  }

  /** The first segment is empty exactly when the string is empty or starts with `_`. */
  lemma FirstSegmentEmpty(s: string)
    ensures Split(s)[0] == "" <==> s == [] || s[0] == '_'
  {
  }

  /** A later segment is empty exactly when the string ends with `_` or has two `_` in a row. */
  lemma {:induction false} LaterSegmentEmpty(s: string)
    ensures (exists i | 1 <= i < |Split(s)| :: Split(s)[i] == "")
        <==> s != [] && (s[|s| - 1] == '_' || DoubleUnderscore(s))
  {
    if s != [] {
      var t := s[1..];
      var rest := Split(t);
      LaterSegmentEmpty(t);
      FirstSegmentEmpty(t);
      DoubleUnderscoreCons(s);
      if t != [] {
        assert s[|s| - 1] == t[|t| - 1];
      }
      if s[0] == '_' {
        assert Split(s) == [""] + rest;
        assert forall i | 1 <= i < |Split(s)| :: Split(s)[i] == rest[i - 1];
        if exists j | 0 <= j < |rest| :: rest[j] == "" {
          var j :| 0 <= j < |rest| && rest[j] == "";
          assert Split(s)[j + 1] == "";
        }
      } else {
        assert Split(s) == [[s[0]] + rest[0]] + rest[1..];
        assert forall i | 1 <= i < |Split(s)| :: Split(s)[i] == rest[i];
      }
    }
  }

  /** Capitalising the segments throws exactly when one of them is empty. */
  lemma EmptySegmentThrows(parts: seq<string>)
    ensures (exists i | 0 <= i < |parts| :: Capitalize(parts[i]).None?)
        <==> exists i | 0 <= i < |parts| :: parts[i] == ""
  {
    if exists i | 0 <= i < |parts| :: parts[i] == "" {
      var i :| 0 <= i < |parts| && parts[i] == "";
      assert Capitalize(parts[i]).None?;
    }
  }

  /** The capitalised segments have the segments' lengths and, like them, no `_`. */
  lemma {:induction false} CapitalizedSegments(parts: seq<string>, caps: seq<string>)
    requires |caps| == |parts|
    requires forall i | 0 <= i < |parts| :: Capitalize(parts[i]) == Some(caps[i])
    requires forall i | 0 <= i < |parts| :: '_' !in parts[i]
    ensures TotalLength(caps) == TotalLength(parts)
    ensures forall i | 0 <= i < |caps| :: '_' !in caps[i]
  {
    forall i | 0 <= i < |caps| ensures '_' !in caps[i] {
      CasingKeepsUnderscore(parts[i][0]);
      assert caps[i] == [caps[i][0]] + caps[i][1..];
    }
    if parts != [] {
      CapitalizedSegments(parts[1..], caps[1..]);
    }
  }

  /**
   * A defined `camelCase` drops exactly the `_`: it is as long as the string minus its `_`,
   * and has none left; its first letter is the string's, upper-cased.
   */
  lemma CamelCaseShape(s: string)
    requires CamelCase(s).Some?
    ensures |CamelCase(s).value| == |s| - Count(s)
    ensures '_' !in CamelCase(s).value
    ensures CamelCase(s).value[0] == Upper(s[0])
  {
    var parts := Split(s);
    var caps := MapAll(Capitalize, parts).value;
    CapitalizedSegments(parts, caps);
    JoinSplit(s);
    JoinedLength(s, parts, caps);
    JoinAvoids(caps, "", '_');
    JoinedFirst(s, parts, caps);
  }

  lemma JoinedLength(s: string, parts: seq<string>, caps: seq<string>)
    requires parts != [] && Join(parts, "_") == s && |parts| == Count(s) + 1
    requires |caps| == |parts| && TotalLength(caps) == TotalLength(parts)
    ensures |Join(caps, "")| == |s| - Count(s)
  {
    JoinLength(parts, "_");
    JoinLength(caps, "");
    assert |"_"| == 1 && |""| == 0;
    assert (|parts| - 1) * 1 == |parts| - 1 && (|caps| - 1) * 0 == 0;
  }

  /** A join starts with the first part's first character. */
  lemma JoinFirst(parts: seq<string>, sep: string)
    requires parts != [] && parts[0] != []
    ensures Join(parts, sep) != [] && Join(parts, sep)[0] == parts[0][0]
  {
    if |parts| > 1 {
      assert Join(parts, sep) == parts[0] + sep + Join(parts[1..], sep);
    }
  }

  /** The first segment of a string that does not start with `_` starts with its first character. */
  lemma FirstSegmentStart(s: string)
    requires s != [] && s[0] != '_'
    ensures Split(s)[0] != [] && Split(s)[0][0] == s[0]
  {
    assert Split(s)[0] == [s[0]] + Split(s[1..])[0];
  }

  lemma JoinedFirst(s: string, parts: seq<string>, caps: seq<string>)
    requires parts == Split(s) && |caps| == |parts|
    requires WellSeparated(s)
    requires forall i | 0 <= i < |parts| :: Capitalize(parts[i]) == Some(caps[i])
    ensures Join(caps, "") != [] && Join(caps, "")[0] == Upper(s[0])
  {
    FirstSegmentStart(s);
    assert caps[0] != [] && caps[0][0] == Upper(parts[0][0]);
    JoinFirst(caps, "");
  }

  /** `decapitalize(camelCase(s))`: it throws exactly where `camelCase` does. */
  function LowerCamelCase(s: string): (r: Option<string>)
    ensures r.Some? <==> WellSeparated(s)
  {
    match CamelCase(s)
    case None => None
    case Some(c) => CamelCaseShape(s); Decapitalize(c)
  }

  /**
   * `lowerCamelCase` is defined exactly where `camelCase` is, and is `camelCase` with its first
   * letter lower-cased: the string's own first letter, lower-cased.
   */
  lemma LowerCamelCaseShape(s: string)
    ensures LowerCamelCase(s).Some? <==> WellSeparated(s)
    ensures LowerCamelCase(s).Some? ==>
              var c, l := CamelCase(s).value, LowerCamelCase(s).value;
              |l| == |c| && l[0] == Lower(s[0]) && l[1..] == c[1..] && '_' !in l
  {
    if CamelCase(s).Some? {
      CamelCaseShape(s);
      CasingKeepsUnderscore(s[0]);
      var l := LowerCamelCase(s).value;
      assert l == [l[0]] + l[1..];
    }
  }

  /** `'$' + lowerCamelCase(n)`: it throws exactly where `camelCase` does. */
  function Param(n: string): (r: Option<string>)
    ensures r.Some? <==> WellSeparated(n)
  {
    match LowerCamelCase(n)
    case None => None
    case Some(l) => Some("$" + l)
  }

  /** A parameter name is `$` and the name without its `_`, the first letter lower-cased. */
  lemma ParamShape(n: string)
    ensures Param(n).Some? <==> WellSeparated(n)
    ensures Param(n).Some? ==>
              var p := Param(n).value;
              |p| == |n| - Count(n) + 1 && p[0] == '$' && p[1] == Lower(n[0]) && '_' !in p
  {
    LowerCamelCaseShape(n);
    if Param(n).Some? {
      CamelCaseShape(n);
    }
  }

  /** `names.map(param)`. */
  function Params(names: seq<string>): (r: Option<seq<string>>)
    ensures r.None? <==> exists i | 0 <= i < |names| :: !WellSeparated(names[i])
    ensures r.Some? ==> |r.value| == |names| && forall i | 0 <= i < |names| :: Param(names[i]) == Some(r.value[i])
  {
    MapAll(Param, names)
  }

  /** One key's condition, `n = $n`. */
  function Clause(n: string): Option<string>
  {
    match Param(n)
    case None => None
    case Some(p) => Some(n + " = " + p)
  }

  /** `keys.map(n => ...).join(' and ')`: it throws exactly when some key's parameter does. */
  function Where(keys: seq<string>): (r: Option<string>)
    ensures r.Some? <==> forall i | 0 <= i < |keys| :: WellSeparated(keys[i])
  {
    match MapAll(Clause, keys)
    case None => None
    case Some(cs) => Some(Join(cs, " and "))
  }

  /**
   * `where` is defined when every key is, is empty for no keys, is the one clause for one key,
   * and each further key adds `" and "` and its clause at the end.
   */
  lemma WhereShape(keys: seq<string>, k: string)
    ensures Where(keys).Some? <==> forall i | 0 <= i < |keys| :: WellSeparated(keys[i])
    ensures Where([]) == Some("")
    ensures Where([k]) == Clause(k)
    ensures keys != [] && Where(keys + [k]).Some? ==>
              Where(keys).Some? && Clause(k).Some?
              && Where(keys + [k]).value == Where(keys).value + " and " + Clause(k).value
  {
    if keys != [] && Where(keys + [k]).Some? {
      MapAllSnoc(Clause, keys, k);
      JoinSnoc(MapAll(Clause, keys).value, Clause(k).value, " and ");
    }
  }

  /** Mapping one more element adds its image at the end. */
  lemma MapAllSnoc(f: string -> Option<string>, xs: seq<string>, x: string)
    requires MapAll(f, xs + [x]).Some?
    ensures MapAll(f, xs).Some? && f(x).Some?
    ensures MapAll(f, xs + [x]).value == MapAll(f, xs).value + [f(x).value]
  {
    var all := MapAll(f, xs + [x]).value;
    assert forall i | 0 <= i < |xs| :: (xs + [x])[i] == xs[i];
    assert (xs + [x])[|xs|] == x;
    var v := MapAll(f, xs).value;
    assert forall i | 0 <= i < |xs| :: v[i] == all[i];
    assert all == v + [all[|xs|]];
  }

  /** `columns.filter(c => !keySet.has(c))`. */
  function NonKeys(columns: seq<string>, keys: seq<string>): (r: seq<string>)
    ensures |r| <= |columns|
  {
    if columns == [] then []
    else (if columns[0] in keys then [] else [columns[0]]) + NonKeys(columns[1..], keys)
  }

  /** The filtered columns are exactly the columns that are not keys. */
  lemma {:induction false} NonKeysMembers(columns: seq<string>, keys: seq<string>)
    ensures forall c :: c in NonKeys(columns, keys) <==> c in columns && c !in keys
  {
    if columns != [] {
      NonKeysMembers(columns[1..], keys);
      assert columns == [columns[0]] + columns[1..];
    }
  }

  /** Filtering keeps column order: it distributes over concatenation. */
  lemma {:induction false} NonKeysConcat(a: seq<string>, b: seq<string>, keys: seq<string>)
    ensures NonKeys(a + b, keys) == NonKeys(a, keys) + NonKeys(b, keys)
  {
    if a != [] {
      assert (a + b)[1..] == a[1..] + b;
      NonKeysConcat(a[1..], b, keys);
    } else {
      assert a + b == b;
    }
  }
}
