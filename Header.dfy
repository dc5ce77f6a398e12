/**
 * The header line of an annotated query, `-- :name <name> :<kind> [<arg>]`, matched as the
 * regular expression `^--\s+:name\s+(\w+)\s+:(\w+)(?:\s+(.*?))?\s*$` matches it.
 *
 * Every capture and every whitespace run of that pattern is forced: `\w` and `\s` are
 * disjoint, so the greedy runs cannot give anything back, and the lazy `(.*?)` stops at
 * the last non-space character. The captured argument therefore has no leading or trailing
 * whitespace, is absent when nothing follows the kind, and is empty when only whitespace
 * does. A tail that begins with anything other than whitespace (`:get(col)`) does not
 * match, and neither does an argument holding a line terminator, which `.` refuses.
 */
module Header {
  import opened Wrappers
  import opened Chars

  /** The three captures: `arg` is None where JavaScript gives `undefined`. */
  datatype Header = Header(name: string, kind: string, arg: Option<string>)

  /** The whitespace runs around the captures, in line order. */
  datatype Layout = Layout(afterDashes: string, afterName: string, afterIdent: string,
                           argLead: string, argTrail: string)

  /** Length of the longest all-whitespace prefix. */
  function SpanSpace(s: string): (n: nat)
    ensures n <= |s|
    ensures forall i | 0 <= i < n :: IsSpace(s[i])
    ensures n == |s| || !IsSpace(s[n])
  {
    if s != [] && IsSpace(s[0]) then 1 + SpanSpace(s[1..]) else 0
  }

  /** Length of the longest all-word-character prefix. */
  function SpanWord(s: string): (n: nat)
    ensures n <= |s|
    ensures forall i | 0 <= i < n :: IsWord(s[i])
    ensures n == |s| || !IsWord(s[n])
  {
    if s != [] && IsWord(s[0]) then 1 + SpanWord(s[1..]) else 0
  }

  /** Length of `s` once its trailing whitespace is cut off. */
  function TrimEndLength(s: string): (n: nat)
    ensures n <= |s|
    ensures forall i | n <= i < |s| :: IsSpace(s[i])
    ensures n == 0 || !IsSpace(s[n - 1])
  {
    if s != [] && IsSpace(s[|s| - 1]) then TrimEndLength(s[..|s| - 1]) else |s|
  }

  /** A literal part of the pattern: the rest of `s` after `p`. */
  function Lit(p: string, s: string): (r: Option<string>)
    ensures r.Some? ==> s == p + r.value
  {
    if |s| >= |p| && s[..|p|] == p then
      assert s == p + s[|p|..];
      Some(s[|p|..])
    else None
  }

  /** `\s+`: the whole leading whitespace run and what follows it. */
  function Gap(s: string): (r: Option<(string, string)>)
    ensures r.None? <==> (s == [] || !IsSpace(s[0]))
    ensures r.Some? ==> s == r.value.0 + r.value.1 && IsGap(r.value.0)
                        && (r.value.1 == [] || !IsSpace(r.value.1[0]))
  {
    var w := SpanSpace(s);
    if w == 0 then None
    else
      assert s == s[..w] + s[w..];
      Some((s[..w], s[w..]))
  }

  /** `(\w+)`: the whole leading word run and what follows it. */
  function Word(s: string): (r: Option<(string, string)>)
    ensures r.None? <==> (s == [] || !IsWord(s[0]))
    ensures r.Some? ==> s == r.value.0 + r.value.1 && IsWordString(r.value.0)
                        && (r.value.1 == [] || !IsWord(r.value.1[0]))
  {
    var n := SpanWord(s);
    if n == 0 then None
    else
      assert s == s[..n] + s[n..];
      Some((s[..n], s[n..]))
  }

  lemma LitOf(p: string, rest: string)
    ensures Lit(p, p + rest) == Some(rest)
  {
    assert (p + rest)[..|p|] == p;
  }

  lemma GapOf(w: string, rest: string)
    requires IsGap(w)
    requires rest == [] || !IsSpace(rest[0])
    ensures Gap(w + rest) == Some((w, rest))
  {
    SpanSpaceOf(w, rest);
    assert (w + rest)[..|w|] == w && (w + rest)[|w|..] == rest;
  }

  lemma WordOf(w: string, rest: string)
    requires IsWordString(w)
    requires rest == [] || !IsWord(rest[0])
    ensures Word(w + rest) == Some((w, rest))
  {
    SpanWordOf(w, rest);
    assert (w + rest)[..|w|] == w && (w + rest)[|w|..] == rest;
  }

  /** The part of the pattern after the kind: `(?:\s+(.*?))?\s*$`. */
  function ScanArg(t: string): Option<(Option<string>, string, string)>
  {
    if t == [] then Some((None, "", ""))
    else if !IsSpace(t[0]) then None
    else
      var w := SpanSpace(t);
      var u := t[w..];
      var n := TrimEndLength(u);
      if exists i | 0 <= i < n :: IsLineTerminator(u[i]) then None
      else Some((Some(u[..n]), t[..w], u[n..]))
  }

  /**
   * The match of the whole pattern against one line, with the whitespace it consumed. It is
   * sound: what it accepts is a well-formed header line that its captures and whitespace runs
   * reassemble exactly.
   */
  function Scan(line: string): (r: Option<(Header, Layout)>)
    ensures r.Some? ==> WellFormed(r.value.0, r.value.1) && Assemble(r.value.0, r.value.1) == line
  {
    match Lit("--", line)
    case None => None
    case Some(r1) =>
      match Gap(r1)
      case None => None
      case Some((ws1, r2)) =>
        match Lit(":name", r2)
        case None => None
        case Some(r3) =>
          match ScanName(ws1, r3)
          case None => None
          case Some((h, lay)) =>
            ScanNameSound(ws1, r3, h, lay);
            Some((h, lay))
  }

  /** The pattern from the `\s+` after `:name` on. */
  function ScanName(ws1: string, r3: string): Option<(Header, Layout)>
  {
    match Gap(r3)
    case None => None
    case Some((ws2, r4)) =>
      match Word(r4)
      case None => None
      case Some((name, r5)) =>
        match Gap(r5)
        case None => None
        case Some((ws3, r6)) =>
          match Lit(":", r6)
          case None => None
          case Some(r7) =>
            match Word(r7)
            case None => None
            case Some((kind, t)) =>
              match ScanArg(t)
              case None => None
              case Some((arg, lead, trail)) =>
                Some((Header(name, kind, arg), Layout(ws1, ws2, ws3, lead, trail)))
  }

  /**
   * `line.match(...)`, reduced to its captures; None where JavaScript gives `null`. The name
   * and the kind are `\w` runs; an argument has no whitespace at either end and no line
   * terminator.
   */
  function HeaderOf(line: string): (r: Option<Header>)
    ensures r.Some? ==> IsWordString(r.value.name) && IsWordString(r.value.kind)
    ensures r.Some? && r.value.arg.Some? ==> CleanArg(r.value.arg.value)
  {
    match Scan(line)
    case None => None
    case Some((h, _)) => Some(h)
  }

  /** The text of a header line with the given captures and whitespace. */
  function Assemble(h: Header, lay: Layout): string
  {
    "--" + (lay.afterDashes + (":name" + (lay.afterName + (h.name + (lay.afterIdent
      + (":" + (h.kind + ArgText(h.arg, lay))))))))
  }

  function ArgText(arg: Option<string>, lay: Layout): string
  {
    match arg
    case None => ""
    case Some(a) => lay.argLead + a + lay.argTrail
  }

  /** A non-empty whitespace run. */
  predicate IsGap(s: string) {
    |s| > 0 && IsBlank(s)
  }

  /** The argument capture as the pattern can produce it, with the whitespace around it. */
  predicate ArgFits(a: string, lead: string, trail: string) {
    && IsGap(lead) && IsBlank(trail) && CleanArg(a)
    && (a == [] ==> trail == [])
  }

  /** An argument as `(.*?)` captures it before `\s*$`: no line terminator, no whitespace at either end. */
  predicate CleanArg(a: string) {
    && (forall i | 0 <= i < |a| :: !IsLineTerminator(a[i]))
    && (a != [] ==> !IsSpace(a[0]) && !IsSpace(a[|a| - 1]))
  }

  /** The captures and whitespace runs that the pattern can produce together. */
  predicate WellFormed(h: Header, lay: Layout) {
    && IsGap(lay.afterDashes) && IsGap(lay.afterName) && IsGap(lay.afterIdent)
    && IsWordString(h.name) && IsWordString(h.kind)
    && match h.arg
       case None => lay.argLead == [] && lay.argTrail == []
       case Some(a) => ArgFits(a, lay.argLead, lay.argTrail)
  }

  /** A whitespace run followed by something that is not whitespace is found by SpanSpace. */
  lemma SpanSpaceOf(w: string, rest: string)
    requires IsBlank(w)
    requires rest == [] || !IsSpace(rest[0])
    ensures SpanSpace(w + rest) == |w|
  {
    var s := w + rest;
    assert forall i | 0 <= i < |w| :: s[i] == w[i];
    assert rest != [] ==> s[|w|] == rest[0];
  }

  /** A word run followed by something that is not a word character is found by SpanWord. */
  lemma SpanWordOf(w: string, rest: string)
    requires forall i | 0 <= i < |w| :: IsWord(w[i])
    requires rest == [] || !IsWord(rest[0])
    ensures SpanWord(w + rest) == |w|
  {
    var s := w + rest;
    assert forall i | 0 <= i < |w| :: s[i] == w[i];
    assert rest != [] ==> s[|w|] == rest[0];
  }

  /** Trailing whitespace after a part that does not end in whitespace is what TrimEndLength cuts. */
  lemma TrimEndLengthOf(a: string, trail: string)
    requires IsBlank(trail)
    requires a == [] || !IsSpace(a[|a| - 1])
    ensures TrimEndLength(a + trail) == |a|
  {
    if trail != [] {
      var shorter := trail[..|trail| - 1];
      assert (a + trail)[..|a + trail| - 1] == a + shorter;
      TrimEndLengthOf(a, shorter);
    } else {
      assert a + trail == a;
    }
  }

  lemma ScanArgSound(t: string, arg: Option<string>, lead: string, trail: string)
    requires ScanArg(t) == Some((arg, lead, trail))
    ensures arg.None? ==> t == [] && lead == [] && trail == []
    ensures arg.Some? ==> ArgFits(arg.value, lead, trail) && t == lead + arg.value + trail
  {
    if t != [] {
      var w := SpanSpace(t);
      var u := t[w..];
      var n := TrimEndLength(u);
      assert lead == t[..w] && arg == Some(u[..n]) && trail == u[n..];
      assert t == t[..w] + u[..n] + u[n..];
      if u != [] {
        assert n > 0;
        assert u[..n][0] == u[0];
      }
    }
  }

  lemma ScanArgComplete(arg: Option<string>, lay: Layout)
    requires arg.None? ==> lay.argLead == [] && lay.argTrail == []
    requires arg.Some? ==> ArgFits(arg.value, lay.argLead, lay.argTrail)
    ensures ScanArg(ArgText(arg, lay)) == Some((arg, lay.argLead, lay.argTrail))
  {
    if arg.Some? {
      var a, lead, trail := arg.value, lay.argLead, lay.argTrail;
      var t := lead + a + trail;
      assert t == lead + (a + trail);
      assert t[0] == lead[0];
      if a != [] {
        assert (a + trail)[0] == a[0];
      } else {
        assert a + trail == [];
      }
      SpanSpaceOf(lead, a + trail);
      assert t[|lead|..] == a + trail;
      TrimEndLengthOf(a, trail);
      assert (a + trail)[..|a|] == a;
      assert (a + trail)[|a|..] == trail;
    }
  }

  lemma ScanNameSound(ws1: string, r3: string, h: Header, lay: Layout)
    requires IsGap(ws1)
    requires ScanName(ws1, r3) == Some((h, lay))
    ensures WellFormed(h, lay) && lay.afterDashes == ws1
    ensures r3 == lay.afterName + (h.name + (lay.afterIdent + (":" + (h.kind + ArgText(h.arg, lay)))))
  {
    var (ws2, r4) := Gap(r3).value;
    var (name, r5) := Word(r4).value;
    var (ws3, r6) := Gap(r5).value;
    var r7 := Lit(":", r6).value;
    var (kind, t) := Word(r7).value;
    var (arg, lead, trail) := ScanArg(t).value;
    ScanArgSound(t, arg, lead, trail);
    assert ArgText(arg, lay) == t;
  }

  /**
   * The pattern up to and including the kind reads the name and the kind back from a
   * well-formed prefix, whatever follows the kind, provided it does not extend the kind.
   */
  lemma ScanPrefix(h: Header, lay: Layout, t: string)
    requires IsGap(lay.afterDashes) && IsGap(lay.afterName) && IsGap(lay.afterIdent)
    requires IsWordString(h.name) && IsWordString(h.kind)
    requires t == [] || !IsWord(t[0])
    ensures Scan("--" + (lay.afterDashes + (":name" + (lay.afterName + (h.name + (lay.afterIdent
              + (":" + (h.kind + t)))))))) ==
            match ScanArg(t)
            case None => None
            case Some((arg, lead, trail)) =>
              Some((Header(h.name, h.kind, arg), Layout(lay.afterDashes, lay.afterName, lay.afterIdent, lead, trail)))
  {
    var r3 := lay.afterName + (h.name + (lay.afterIdent + (":" + (h.kind + t))));
    var r2 := ":name" + r3;
    var r1 := lay.afterDashes + r2;
    LitOf("--", r1);
    GapOf(lay.afterDashes, r2);
    LitOf(":name", r3);
    ScanNamePrefix(h, lay, t);
  }

  lemma ScanNamePrefix(h: Header, lay: Layout, t: string)
    requires IsGap(lay.afterName) && IsGap(lay.afterIdent)
    requires IsWordString(h.name) && IsWordString(h.kind)
    requires t == [] || !IsWord(t[0])
    ensures ScanName(lay.afterDashes, lay.afterName + (h.name + (lay.afterIdent + (":" + (h.kind + t))))) ==
            match ScanArg(t)
            case None => None
            case Some((arg, lead, trail)) =>
              Some((Header(h.name, h.kind, arg), Layout(lay.afterDashes, lay.afterName, lay.afterIdent, lead, trail)))
  {
    var r7 := h.kind + t;
    var r6 := ":" + r7;
    var r5 := lay.afterIdent + r6;
    var r4 := h.name + r5;
    assert r4[0] == h.name[0];
    GapOf(lay.afterName, r4);
    assert r5[0] == lay.afterIdent[0];
    WordOf(h.name, r5);
    GapOf(lay.afterIdent, r6);
    LitOf(":", r7);
    WordOf(h.kind, t);
  }

  /** Completeness of the matcher: every well-formed header line is accepted, with its captures. */
  lemma ScanComplete(h: Header, lay: Layout)
    requires WellFormed(h, lay)
    ensures Scan(Assemble(h, lay)) == Some((h, lay))
  {
    var t := ArgText(h.arg, lay);
    if t != [] {
      assert t[0] == lay.argLead[0];
    }
    ScanPrefix(h, lay, t);
    ScanArgComplete(h.arg, lay);
  }

  /** A line is a header with captures `h` exactly when it is laid out as the pattern demands. */
  lemma HeaderOfIff(line: string, h: Header)
    ensures HeaderOf(line) == Some(h) <==> exists lay :: WellFormed(h, lay) && Assemble(h, lay) == line
  {
    if HeaderOf(line) == Some(h) {
      var lay := Scan(line).value.1;
    }
    if exists lay :: WellFormed(h, lay) && Assemble(h, lay) == line {
      var lay :| WellFormed(h, lay) && Assemble(h, lay) == line;
      ScanComplete(h, lay);
    }
  }

  /** The header line written with single spaces. */
  function Render(h: Header): string
  {
    Assemble(h, Layout(" ", " ", " ", if h.arg.Some? then " " else "", ""))
  }

  /** Captures that some header line can carry. */
  predicate Renderable(h: Header) {
    && IsWordString(h.name) && IsWordString(h.kind)
    && (h.arg.Some? ==> ArgFits(h.arg.value, " ", ""))
  }

  /** Writing a header and reading it back gives the same name, kind and argument. */
  lemma RenderRoundTrip(h: Header)
    requires Renderable(h)
    ensures HeaderOf(Render(h)) == Some(h)
  {
    ScanComplete(h, Layout(" ", " ", " ", if h.arg.Some? then " " else "", ""));
  }

  /** A parenthesised argument, as in `:get(col)`, makes the line fail the pattern. */
  lemma ParenthesisedArgIsNoHeader(name: string, kind: string, rest: string)
    requires IsWordString(name) && IsWordString(kind)
    ensures HeaderOf("-- :name " + name + " :" + kind + "(" + rest) == None
  {
    var t := "(" + rest;
    assert t[0] == '(' && !IsSpace(t[0]) && !IsWord(t[0]);
    assert ScanArg(t) == None;
    ParenLine(name, kind, rest);
    ScanPrefix(Header(name, kind, None), Layout(" ", " ", " ", "", ""), t);
    var line := "--" + (" " + (":name" + (" " + (name + (" " + (":" + (kind + t)))))));
    assert Scan(line) == None;
  }

  lemma ParenLine(name: string, kind: string, rest: string)
    ensures "-- :name " + name + " :" + kind + "(" + rest
         == "--" + (" " + (":name" + (" " + (name + (" " + (":" + (kind + ("(" + rest))))))))
  {
    var a := "-- :name " + name;
    assert a == "--" + (" " + (":name" + (" " + name)));
    var b := a + " :" + kind;
    assert b == a + (" " + (":" + kind));
    assert b + "(" + rest == a + (" " + (":" + (kind + ("(" + rest))));
  }
}
