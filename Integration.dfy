/**
 * The generator's output read back by the module loader.
 *
 * The generator prints `:insert` headers (for the insert query of every table and the make
 * query of every rowid table), but `insert` is not a kind of the loader's table. So the
 * complete output of a table whose singular name is made of `\w` characters does not load:
 * the file either fails to parse or fails the kind check.
 */
module Integration {
  import opened Wrappers
  import opened Chars
  import Identifiers
  import Header
  import Parser
  import Kinds
  import Registry
  import Generator

  /** Every character matches `\w` (the empty string included). */
  predicate AllWord(s: string) {
    forall i | 0 <= i < |s| :: IsWord(s[i])
  }

  lemma UpperIsWord(c: char)
    requires IsWord(c)
    ensures IsWord(Identifiers.Upper(c))
  {
  }

  /** The segments of a `\w` string are `\w` strings. */
  lemma {:induction false} SplitIsWord(s: string)
    requires AllWord(s)
    ensures forall i | 0 <= i < |Identifiers.Split(s)| :: AllWord(Identifiers.Split(s)[i])
  {
    if s != [] {
      var rest := Identifiers.Split(s[1..]);
      assert AllWord(s[1..]) by {
        assert forall i | 0 <= i < |s[1..]| :: s[1..][i] == s[i + 1];
      }
      SplitIsWord(s[1..]);
      if s[0] != '_' {
        var head := [s[0]] + rest[0];
        assert forall i | 1 <= i < |head| :: head[i] == rest[0][i - 1];
        assert AllWord(head);
        assert Identifiers.Split(s) == [head] + rest[1..];
        assert forall i | 1 <= i < |Identifiers.Split(s)| :: Identifiers.Split(s)[i] == rest[i];
      } else {
        assert Identifiers.Split(s) == [""] + rest;
        assert forall i | 1 <= i < |Identifiers.Split(s)| :: Identifiers.Split(s)[i] == rest[i - 1];
      }
    }
  }

  lemma CapitalizeIsWord(s: string)
    requires AllWord(s) && s != []
    ensures AllWord(Identifiers.Capitalize(s).value)
  {
    UpperIsWord(s[0]);
    var c := Identifiers.Capitalize(s).value;
    assert forall i | 1 <= i < |c| :: c[i] == s[i];
  }

  /** Gluing `\w` strings together gives a `\w` string. */
  lemma {:induction false} JoinIsWord(parts: seq<string>)
    requires forall i | 0 <= i < |parts| :: AllWord(parts[i])
    ensures AllWord(Identifiers.Join(parts, ""))
  {
    if |parts| > 1 {
      JoinIsWord(parts[1..]);
      var tail := Identifiers.Join(parts[1..], "");
      assert AllWord(parts[0]);
      assert Identifiers.Join(parts, "") == parts[0] + "" + tail;
      assert forall i | |parts[0]| <= i < |parts[0]| + |tail| :: (parts[0] + "" + tail)[i] == tail[i - |parts[0]|];
    }
  }

  /** `camelCase` of a `\w` string is a `\w` string. */
  lemma CamelCaseIsWord(s: string)
    requires AllWord(s)
    requires Identifiers.CamelCase(s).Some?
    ensures AllWord(Identifiers.CamelCase(s).value)
  {
    var parts := Identifiers.Split(s);
    var caps := Identifiers.MapAll(Identifiers.Capitalize, parts).value;
    SplitIsWord(s);
    forall i | 0 <= i < |caps| ensures AllWord(caps[i]) {
      CapitalizeIsWord(parts[i]);
    }
    JoinIsWord(caps);
  }

  /** `-- :name <name> :insert` is a header line with that name, the `insert` kind and no argument. */
  lemma InsertHeaderLine(name: string)
    requires IsWordString(name)
    ensures Header.HeaderOf("-- :name " + name + " :" + "insert") == Some(Header.Header(name, "insert", None))
  {
    var h := Header.Header(name, "insert", None);
    var a := "-- :name " + name;
    assert a == "--" + (" " + (":name" + (" " + name)));
    assert a + " :" + "insert" == a + (" " + (":" + ("insert" + "")));
    assert Header.Render(h) == "-- :name " + name + " :" + "insert";
    Header.RenderRoundTrip(h);
  }

  /** A header line's header is among the headers of the lines. */
  lemma {:induction false} HeaderInHeaders(ls: seq<Parser.Line>, i: int)
    requires 0 <= i < |ls| && ls[i].HeaderLine?
    ensures exists j | 0 <= j < |Parser.Headers(ls)| :: Parser.Headers(ls)[j] == ls[i].header
  {
    var init := ls[..|ls| - 1];
    if i == |ls| - 1 {
      var j := |Parser.Headers(init)|;
      assert Parser.Headers(ls)[j] == ls[i].header;
    } else {
      assert init[i] == ls[i];
      HeaderInHeaders(init, i);
      var j :| 0 <= j < |Parser.Headers(init)| && Parser.Headers(init)[j] == ls[i].header;
      assert Parser.Headers(ls)[j] == ls[i].header;
    }
  }

  /** A file with a header line of a kind outside the table never loads. */
  lemma UnknownKindUnloadable(lines: seq<string>, i: int, h: Header.Header)
    requires 0 <= i < |lines| && Header.HeaderOf(lines[i]) == Some(h)
    requires Kinds.KindNamed(h.kind).None?
    ensures Registry.LoadModule(lines).Failure?
  {
    var ls := Parser.Classified(lines);
    assert ls[i] == Parser.HeaderLine(h);
    if Parser.Specs(lines).Success? {
      var specs := Parser.Specs(lines).value;
      Parser.SpecsFollowHeaders(ls);
      HeaderInHeaders(ls, i);
      var j :| 0 <= j < |Parser.Headers(ls)| && Parser.Headers(ls)[j] == h;
      assert Parser.SpecHeaders(specs)[j] == Parser.HeaderOfSpec(specs[j]);
      assert Kinds.KindNamed(specs[j].kind).None?;
      Registry.LoadSpecsIff(specs);
    }
  }

  /** The complete output of a table has the insert query's header at line `3 * k`. */
  lemma InsertHeaderPrinted(t: Generator.TableInfo, singular: string -> string) returns (k: nat, name: string)
    requires Generator.Printed(Generator.Planned(t, singular)).complete
    requires AllWord(singular(t.name))
    ensures 3 * k < |Generator.Printed(Generator.Planned(t, singular)).lines|
    ensures Generator.Printed(Generator.Planned(t, singular)).lines[3 * k] == "-- :name " + name + " :" + "insert"
    ensures IsWordString(name)
  {
    var qs := Generator.Planned(t, singular);
    Generator.AlwaysEmitted(t, singular);
    k :| 0 <= k < |qs| && qs[k].role == Generator.InsertRow;
    assert qs[k] == Generator.QueryFor(t, singular, Generator.InsertRow);
    PrintedHeaderAt(qs, k);
    name := InsertQueryName(t, singular);
  }

  /** In a complete output, line `3 * k` is the header of query `k`. */
  lemma PrintedHeaderAt(qs: seq<Generator.Query>, k: int)
    requires Generator.Printed(qs).complete && 0 <= k < |qs|
    ensures qs[k].name.Some? && 3 * k < |Generator.Printed(qs).lines|
    ensures Generator.Printed(qs).lines[3 * k] == "-- :name " + qs[k].name.value + " :" + Generator.KindWord(qs[k].role)
  {
    Generator.PrintedComplete(qs);
  }

  /** The insert query's name, `insert` and the camel-cased singular, is a `\w` string. */
  lemma InsertQueryName(t: Generator.TableInfo, singular: string -> string) returns (name: string)
    requires Generator.QueryFor(t, singular, Generator.InsertRow).name.Some?
    requires AllWord(singular(t.name))
    ensures Generator.QueryFor(t, singular, Generator.InsertRow).name == Some(name)
    ensures IsWordString(name)
  {
    var camel := Identifiers.CamelCase(singular(t.name)).value;
    name := "insert" + camel;
    CamelCaseIsWord(singular(t.name));
    PrefixedIsWord("insert", camel);
  }

  lemma PrefixedIsWord(p: string, s: string)
    requires IsWordString(p) && AllWord(s)
    ensures IsWordString(p + s)
  {
    assert forall i | |p| <= i < |p + s| :: (p + s)[i] == s[i - |p|];
  }

  /** `insert` is not a kind of the loader's table. */
  lemma InsertIsNoKind()
    ensures Kinds.KindNamed("insert").None?
  {
  }

  /** A file with an `insert` header line never loads. */
  lemma InsertHeaderUnloadable(lines: seq<string>, i: int, name: string)
    requires 0 <= i < |lines| && lines[i] == "-- :name " + name + " :" + "insert"
    requires IsWordString(name)
    ensures Registry.LoadModule(lines).Failure?
  {
    var h := Header.Header(name, "insert", None);
    InsertHeaderLine(name);
    InsertIsNoKind();
    assert Header.HeaderOf(lines[i]) == Some(h);
    UnknownKindUnloadable(lines, i, h);
  }

  /**
   * The complete output of the generator for one table, loaded as a query file, fails to load
   * when the table's singular is made of `\w` characters. Then the insert header matches the
   * pattern and declares the kind `insert`, which the loader does not know; the failure is
   * that, or a parse error caused by an earlier line.
   */
  lemma GeneratedTableUnloadable(t: Generator.TableInfo, singular: string -> string)
    requires Generator.Printed(Generator.Planned(t, singular)).complete
    requires AllWord(singular(t.name))
    ensures Registry.LoadModule(Generator.Printed(Generator.Planned(t, singular)).lines).Failure?
  {
    var k, name := InsertHeaderPrinted(t, singular);
    InsertHeaderUnloadable(Generator.Printed(Generator.Planned(t, singular)).lines, 3 * k, name);
  }
}
