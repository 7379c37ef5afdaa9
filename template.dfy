/**
 * Producing the configuration root: the root's attributes, updated with the external key=value
 * arguments, become the substitution context, and every text and attribute value of the tree is
 * passed through `str.format(**context)`. The context dict IS the root's attribute dict, so the
 * root's own attributes are rewritten while they serve as context.
 */
module Template {
  import opened Wrappers
  import opened Strings
  import opened Host
  import opened Xml

  type Context = map<string, string>

  // ---------------------------------------------------------------------------------------------
  // str.format with keyword arguments only
  // ---------------------------------------------------------------------------------------------

  /** Characters that start attribute access, indexing, a conversion or a format spec. */
  predicate FieldSyntax(c: char) {
    c == '.' || c == '[' || c == '!' || c == ':'
  }

  /** The value of one replacement field `{name}`. */
  function FieldValue(name: string, ctx: Context): (r: Outcome<string>)
    ensures r.Ok? <==> (name in ctx && '{' !in name && !AllDigits(name)
                        && forall i :: 0 <= i < |name| ==> !FieldSyntax(name[i]))
    ensures r.Ok? ==> r.value == ctx[name]
  {
    if '{' in name then Err(TemplateSyntax)
    else if exists i :: 0 <= i < |name| && FieldSyntax(name[i]) then Err(TemplateUnsupported(name))
    else if AllDigits(name) then Err(TemplatePositional(name))
    else if name in ctx then Ok(ctx[name])
    else Err(TemplateKeyMissing(name))
  }

  /** `s.format(**ctx)`, scanning left to right and failing at the first bad field. */
  function Format(s: string, ctx: Context): Outcome<string>
    decreases |s|
  {
    if s == [] then Ok([])
    else if s[0] == '{' then
      if |s| > 1 && s[1] == '{' then
        var rest :- Format(s[2..], ctx);
        Ok("{" + rest)
      else
        var close := IndexOf(s[1..], '}');
        if close < 0 then Err(TemplateSyntax)
        else
          var value :- FieldValue(s[1..1 + close], ctx);
          var rest :- Format(s[close + 2..], ctx);
          Ok(value + rest)
    else if s[0] == '}' then
      if |s| > 1 && s[1] == '}' then
        var rest :- Format(s[2..], ctx);
        Ok("}" + rest)
      else Err(TemplateSyntax)
    else
      var rest :- Format(s[1..], ctx);
      Ok([s[0]] + rest)
  }

  /** A format string as literal characters and named fields. */
  datatype Piece = Lit(c: char) | Field(name: string)

  /** A field name str.format reads as a plain keyword. */
  predicate KeywordName(name: string) {
    !AllDigits(name) && '{' !in name && '}' !in name
      && forall i :: 0 <= i < |name| ==> !FieldSyntax(name[i])
  }

  /** The format string for a list of pieces, with braces in literals doubled. */
  function Unparse(ps: seq<Piece>): string {
    if ps == [] then []
    else
      var head := match ps[0]
        case Lit(c) => if c == '{' || c == '}' then [c, c] else [c]
        case Field(n) => "{" + n + "}";
      head + Unparse(ps[1..])
  }

  /** What the pieces mean under a context: each literal is itself, each field its value. */
  function Fill(ps: seq<Piece>, ctx: Context): (r: Outcome<string>)
    ensures r.Ok? <==> forall i :: 0 <= i < |ps| && ps[i].Field? ==> ps[i].name in ctx
  {
    if ps == [] then Ok([])
    else
      var head :- match ps[0]
        case Lit(c) => Ok([c])
        case Field(n) => if n in ctx then Ok(ctx[n]) else Err(TemplateKeyMissing(n));
      var rest :- Fill(ps[1..], ctx);
      assert forall i :: 1 <= i < |ps| ==> ps[i] == ps[1..][i - 1];
      Ok(head + rest)
  }

  /** `p` in front of a successful result; an error passes through. */
  function Prefix(p: string, r: Outcome<string>): Outcome<string> {
    if r.Ok? then Ok(p + r.value) else r
  }

  lemma FormatPlainChar(c: char, t: string, ctx: Context)
    requires c != '{' && c != '}'
    ensures Format([c] + t, ctx) == Prefix([c], Format(t, ctx))
  {
    assert ([c] + t)[1..] == t;
  }

  lemma FormatEscaped(c: char, t: string, ctx: Context)
    requires c == '{' || c == '}'
    ensures Format([c, c] + t, ctx) == Prefix([c], Format(t, ctx))
  {
    assert ([c, c] + t)[2..] == t;
  }

  lemma FormatField(n: string, t: string, ctx: Context)
    requires KeywordName(n)
    ensures Format("{" + n + "}" + t, ctx) ==
      if n in ctx then Prefix(ctx[n], Format(t, ctx)) else Err(TemplateKeyMissing(n))
  {
    var s := "{" + n + "}" + t;
    assert n != [] by { assert AllDigits([]); }
    assert s[1] == n[0];
    assert s[1..] == n + "}" + t;
    FieldClose(n, t);
    assert s[1..1 + |n|] == n;
    assert s[|n| + 2..] == t;
  }

  /** Formatting the rendered form of well-formed pieces fills them in: format parses what it means. */
  lemma {:induction false} FormatUnparse(ps: seq<Piece>, ctx: Context)
    requires forall i :: 0 <= i < |ps| && ps[i].Field? ==> KeywordName(ps[i].name)
    ensures Format(Unparse(ps), ctx) == Fill(ps, ctx)
  {
    if ps != [] {
      var tail := Unparse(ps[1..]);
      assert forall i :: 1 <= i < |ps| ==> ps[i] == ps[1..][i - 1];
      FormatUnparse(ps[1..], ctx);
      match ps[0]
      case Lit(c) =>
        if c == '{' || c == '}' {
          FormatEscaped(c, tail, ctx);
        } else {
          FormatPlainChar(c, tail, ctx);
        }
      case Field(n) =>
        FormatField(n, tail, ctx);
    }
  }

  lemma FieldClose(n: string, tail: string)
    requires '}' !in n
    ensures IndexOf((n + "}" + tail), '}') == |n|
  {
    var t := n + "}" + tail;
    assert t[|n|] == '}';
    assert forall i :: 0 <= i < |n| ==> t[i] == n[i];
  }

  /** Text without braces comes back unchanged, whatever the context. */
  lemma {:induction false} FormatPlain(s: string, ctx: Context)
    requires '{' !in s && '}' !in s
    ensures Format(s, ctx) == Ok(s)
  {
    if s != [] {
      assert s[0] in s;
      assert forall c :: c in s[1..] ==> c in s;
      FormatPlain(s[1..], ctx);
      FormatPlainChar(s[0], s[1..], ctx);
      assert [s[0]] + s[1..] == s;
    }
  }

  /** A field followed by plain text: the field's value, then the text. */
  lemma FormatFieldThenPlain(n: string, t: string, ctx: Context)
    requires KeywordName(n) && '{' !in t && '}' !in t
    ensures Format("{" + n + "}" + t, ctx) ==
      if n in ctx then Ok(ctx[n] + t) else Err(TemplateKeyMissing(n))
  {
    FormatField(n, t, ctx);
    FormatPlain(t, ctx);
  }

  lemma ReleaseTemplate()
    ensures KeywordName("env")
    ensures "{env}-release" == "{" + "env" + "}" + "-release"
    ensures '{' !in "-release" && '}' !in "-release"
  {
    assert !IsDigit("env"[0]);
  }

  /** A placeholder is replaced by its value: `{env}-release` with `env` bound to `v` is `v-release`. */
  lemma FormatReleaseWith(v: string)
    ensures Format("{env}-release", map["env" := v]) == Ok(v + "-release")
  {
    ReleaseTemplate();
    FormatFieldThenPlain("env", "-release", map["env" := v]);
  }

  /** A key missing from the context is an error naming it. */
  lemma FormatMissingKeyExample()
    ensures Format("{env}-release", map[]) == Err(TemplateKeyMissing("env"))
  {
    ReleaseTemplate();
    FormatFieldThenPlain("env", "-release", map[]);
  }

  /** A numeric field is positional, and there are no positional arguments. */
  lemma FormatPositionalExample()
    ensures Format("{0}", map["0" := "x"]) == Err(TemplatePositional("0"))
  {
    assert IndexOf("0}", '}') == 1;
    assert "{0}"[1..2] == "0";
    assert AllDigits("0");
  }

  /** A single closing brace is a syntax error. */
  lemma FormatStrayBraceExample()
    ensures Format("a}", map[]) == Err(TemplateSyntax)
  {
    assert "a}" == ['a'] + "}";
    FormatPlainChar('a', "}", map[]);
  }

  // ---------------------------------------------------------------------------------------------
  // The context: root attributes updated with the external arguments
  // ---------------------------------------------------------------------------------------------

  /** One `key=value` argument, unpacked from `s.split('=')`: exactly one '=' is required. */
  function ParseExtArg(s: string): (r: Outcome<(string, string)>)
    ensures r.Ok? ==> s == r.value.0 + "=" + r.value.1 && '=' !in r.value.0 && '=' !in r.value.1
    ensures r.Err? ==> r.error == MalformedExternalArgument(s)
  {
    var i := IndexOf(s, '=');
    if i < 0 || '=' in s[i + 1..] then Err(MalformedExternalArgument(s))
    else
      assert s == s[..i] + "=" + s[i + 1..];
      Ok((s[..i], s[i + 1..]))
  }

  /** Every text with exactly one '=' splits there: the converse of ParseExtArg's contract. */
  lemma ParseExtArgJoin(k: string, v: string)
    requires '=' !in k && '=' !in v
    ensures ParseExtArg(k + "=" + v) == Ok((k, v))
  {
    var s := k + "=" + v;
    assert s[|k|] == '=';
    assert forall i :: 0 <= i < |k| ==> s[i] == k[i];
    assert s[|k| + 1..] == v;
    assert s[..|k|] == k;
  }

  /** The generator of pairs: the first malformed argument ends it. */
  function ParseExtArgs(args: seq<string>): (r: Outcome<Attrs>)
    ensures r.Ok? <==> forall i :: 0 <= i < |args| ==> ParseExtArg(args[i]).Ok?
    ensures r.Ok? ==> |r.value| == |args|
    ensures r.Ok? ==> forall i :: 0 <= i < |args| ==> ParseExtArg(args[i]) == Ok(r.value[i])
  {
    if args == [] then Ok([])
    else
      var p :- ParseExtArg(args[0]);
      var ps :- ParseExtArgs(args[1..]);
      assert forall i :: 1 <= i < |args| ==> args[i] == args[1..][i - 1];
      Ok([p] + ps)
  }

  /** `d[k] = v` for each pair in order; equals updating with the dict the pairs build. */
  function UpdateAll(attrs: Attrs, pairs: Attrs): Attrs
    decreases |pairs|
  {
    if pairs == [] then attrs
    else
      var last := pairs[|pairs| - 1];
      Assign(UpdateAll(attrs, pairs[..|pairs| - 1]), last.0, last.1)
  }

  /** Updating keeps a dict a dict, and keeps the keys it had in their order. */
  lemma {:induction false} UpdateAllKeys(attrs: Attrs, pairs: Attrs)
    requires UniqueKeys(attrs)
    ensures UniqueKeys(UpdateAll(attrs, pairs))
    ensures |attrs| <= |UpdateAll(attrs, pairs)|
    ensures Keys(UpdateAll(attrs, pairs))[..|attrs|] == Keys(attrs)
    decreases |pairs|
  {
    if pairs != [] {
      var init := pairs[..|pairs| - 1];
      var last := pairs[|pairs| - 1];
      var r0 := UpdateAll(attrs, init);
      UpdateAllKeys(attrs, init);
      AssignKeys(r0, last.0, last.1);
      var r := Assign(r0, last.0, last.1);
      assert Keys(r)[..|r0|] == Keys(r0);
      assert Keys(r)[..|attrs|] == Keys(r0)[..|attrs|];
    }
  }

  /** Updating lets the new pairs win, the later of two equal keys winning. */
  lemma {:induction false} UpdateAllMap(attrs: Attrs, pairs: Attrs)
    requires UniqueKeys(attrs)
    ensures AsMap(UpdateAll(attrs, pairs)) == AsMap(attrs) + AsMap(pairs)
    decreases |pairs|
  {
    if pairs == [] {
      assert AsMap(attrs) + map[] == AsMap(attrs);
    } else {
      var init := pairs[..|pairs| - 1];
      var last := pairs[|pairs| - 1];
      var r0 := UpdateAll(attrs, init);
      UpdateAllMap(attrs, init);
      UpdateAllKeys(attrs, init);
      AssignMap(r0, last.0, last.1);
      UnionUpdate(AsMap(attrs), AsMap(init), last.0, last.1);
    }
  }

  lemma UnionUpdate(m: Context, n: Context, k: string, v: string)
    ensures (m + n)[k := v] == m + n[k := v]
  {
  }

  /** The root's attributes after `refKeywords.update(...)`, when external arguments are given. */
  function Merge(attrs: Attrs, extArgs: seq<string>): (r: Outcome<Attrs>)
    ensures extArgs == [] ==> r == Ok(attrs)
    ensures r.Ok? <==> forall i :: 0 <= i < |extArgs| ==> ParseExtArg(extArgs[i]).Ok?
  {
    if extArgs == [] then Ok(attrs)
    else
      var pairs :- ParseExtArgs(extArgs);
      Ok(UpdateAll(attrs, pairs))
  }

  /** The merged context: root attributes first, then new keys; the external value wins a clash. */
  lemma MergeWins(attrs: Attrs, extArgs: seq<string>)
    requires UniqueKeys(attrs)
    requires Merge(attrs, extArgs).Ok?
    ensures var m := Merge(attrs, extArgs).value;
      UniqueKeys(m) && |attrs| <= |m| && Keys(m)[..|attrs|] == Keys(attrs)
      && AsMap(m) == AsMap(attrs) + AsMap(ParseExtArgs(extArgs).value)
  {
    if extArgs == [] {
      assert AsMap(ParseExtArgs(extArgs).value) == map[];
      assert AsMap(attrs) + map[] == AsMap(attrs);
    } else {
      UpdateAllKeys(attrs, ParseExtArgs(extArgs).value);
      UpdateAllMap(attrs, ParseExtArgs(extArgs).value);
    }
  }

  // ---------------------------------------------------------------------------------------------
  // Substitution over the tree
  // ---------------------------------------------------------------------------------------------

  /** `b` is `a` with every value formatted under `ctx`, keys and order unchanged. */
  predicate AttrsFormatted(a: Attrs, b: Attrs, ctx: Context) {
    |a| == |b| && forall i :: 0 <= i < |a| ==> b[i].0 == a[i].0 && Format(a[i].1, ctx) == Ok(b[i].1)
  }

  /** `r` is `e` with every text and attribute value of the subtree formatted under `ctx`. */
  predicate Templated(e: Element, r: Element, ctx: Context)
    decreases e
  {
    && r.tag == e.tag
    && Format(e.text, ctx) == Ok(r.text)
    && AttrsFormatted(e.attrib, r.attrib, ctx)
    && |r.children| == |e.children|
    && forall i :: 0 <= i < |e.children| ==> Templated(e.children[i], r.children[i], ctx)
  }

  function FormatAttrs(attrs: Attrs, ctx: Context): (r: Outcome<Attrs>)
    ensures r.Ok? ==> AttrsFormatted(attrs, r.value, ctx)
  {
    if attrs == [] then Ok([])
    else
      var v :- Format(attrs[0].1, ctx);
      var rest :- FormatAttrs(attrs[1..], ctx);
      Ok([(attrs[0].0, v)] + rest)
  }

  /** One subtree, in `iter()` order: the node's text, its attributes, then its children. */
  function FormatTree(e: Element, ctx: Context): (r: Outcome<Element>)
    ensures r.Ok? ==> Templated(e, r.value, ctx)
    decreases e, 1
  {
    var text :- Format(e.text, ctx);
    var attrib :- FormatAttrs(e.attrib, ctx);
    var children :- FormatForest(e.children, ctx);
    Ok(Element(e.tag, attrib, text, children))
  }

  function FormatForest(cs: seq<Element>, ctx: Context): (r: Outcome<seq<Element>>)
    ensures r.Ok? ==> |r.value| == |cs| && forall i :: 0 <= i < |cs| ==> Templated(cs[i], r.value[i], ctx)
    decreases cs, 0
  {
    if cs == [] then Ok([])
    else
      var c :- FormatTree(cs[0], ctx);
      var rest :- FormatForest(cs[1..], ctx);
      Ok([c] + rest)
  }

  lemma {:induction false} FormatAttrsComplete(a: Attrs, b: Attrs, ctx: Context)
    requires AttrsFormatted(a, b, ctx)
    ensures FormatAttrs(a, ctx) == Ok(b)
  {
    if a != [] {
      FormatAttrsComplete(a[1..], b[1..], ctx);
      assert b == [(a[0].0, b[0].1)] + b[1..];
    }
  }

  /** Any templated tree is the one FormatTree builds: the substitution has one result. */
  lemma {:induction false} FormatTreeComplete(e: Element, r: Element, ctx: Context)
    requires Templated(e, r, ctx)
    ensures FormatTree(e, ctx) == Ok(r)
    decreases e, 1
  {
    FormatAttrsComplete(e.attrib, r.attrib, ctx);
    FormatForestComplete(e.children, r.children, ctx);
  }

  lemma {:induction false} FormatForestComplete(cs: seq<Element>, rs: seq<Element>, ctx: Context)
    requires |rs| == |cs| && forall i :: 0 <= i < |cs| ==> Templated(cs[i], rs[i], ctx)
    ensures FormatForest(cs, ctx) == Ok(rs)
    decreases cs, 0
  {
    if cs != [] {
      FormatTreeComplete(cs[0], rs[0], ctx);
      assert forall i :: 0 <= i < |cs| - 1 ==> cs[1..][i] == cs[i + 1] && rs[1..][i] == rs[i + 1];
      FormatForestComplete(cs[1..], rs[1..], ctx);
      assert rs == [rs[0]] + rs[1..];
    }
  }

  /**
   * The root's own attributes, rewritten one key at a time against the dict as it stands:
   * values before position `i` are already rewritten when later ones are formatted.
   */
  function FormatOwnAttrs(attrs: Attrs, i: nat): (r: Outcome<Attrs>)
    requires i <= |attrs|
    ensures r.Ok? ==> |r.value| == |attrs| && forall j :: 0 <= j < |attrs| ==> r.value[j].0 == attrs[j].0
    decreases |attrs| - i
  {
    if i == |attrs| then Ok(attrs)
    else
      var v :- Format(attrs[i].1, AsMap(attrs));
      var next := attrs[i := (attrs[i].0, v)];
      FormatOwnAttrs(next, i + 1)
  }

  /**
   * `r` is `orig` with every value rewritten in turn: from position `i` on, each value of `r` is
   * the original one, formatted against the dict in which the values before it are already
   * rewritten and the rest are still original.
   */
  predicate RewrittenFrom(orig: Attrs, r: Attrs, i: nat) {
    |r| == |orig| &&
    forall j :: i <= j < |orig| ==> Format(orig[j].1, AsMap(r[..j] + orig[j..])) == Ok(r[j].1)
  }

  /** One step of the rewrite: the value at `i` is formatted against the dict as it stands. */
  lemma FormatOwnAttrsStep(attrs: Attrs, i: nat)
    requires i < |attrs| && FormatOwnAttrs(attrs, i).Ok?
    ensures Format(attrs[i].1, AsMap(attrs)).Ok?
    ensures FormatOwnAttrs(attrs, i) ==
      FormatOwnAttrs(attrs[i := (attrs[i].0, Format(attrs[i].1, AsMap(attrs)).value)], i + 1)
  {
  }

  /**
   * What the rewrite of the root's own attributes computes: values before `i` stay as they are,
   * and the values from `i` on are rewritten in turn.
   */
  lemma {:induction false} FormatOwnAttrsValues(attrs: Attrs, i: nat)
    requires i <= |attrs| && FormatOwnAttrs(attrs, i).Ok?
    ensures var r := FormatOwnAttrs(attrs, i).value;
      && (forall j :: 0 <= j < i ==> r[j] == attrs[j])
      && RewrittenFrom(attrs, r, i)
    decreases |attrs| - i
  {
    if i < |attrs| {
      FormatOwnAttrsStep(attrs, i);
      var v := Format(attrs[i].1, AsMap(attrs)).value;
      var next := attrs[i := (attrs[i].0, v)];
      FormatOwnAttrsValues(next, i + 1);
      var r := FormatOwnAttrs(next, i + 1).value;
      RewrittenStep(attrs, next, r, i, v);
    }
  }

  /** Rewriting the value at `i` to `v` and the rest in turn is rewriting from `i` in turn. */
  lemma RewrittenStep(attrs: Attrs, next: Attrs, r: Attrs, i: nat, v: string)
    requires i < |attrs| && next == attrs[i := (attrs[i].0, v)]
    requires Format(attrs[i].1, AsMap(attrs)) == Ok(v)
    requires RewrittenFrom(next, r, i + 1) && forall j :: 0 <= j < i + 1 ==> r[j] == next[j]
    ensures (forall j :: 0 <= j < i ==> r[j] == attrs[j]) && RewrittenFrom(attrs, r, i)
  {
    RewrittenPrefix(attrs, next, r, i, v);
    forall j | i < j < |attrs|
      ensures Format(attrs[j].1, AsMap(r[..j] + attrs[j..])) == Ok(r[j].1)
    {
      RewrittenLater(attrs, next, r, i, v, j);
    }
  }

  /** Before the value at `i` is formatted, the dict is the rewritten values, then the original ones. */
  lemma RewrittenPrefix(attrs: Attrs, next: Attrs, r: Attrs, i: nat, v: string)
    requires i < |attrs| && next == attrs[i := (attrs[i].0, v)]
    requires |r| == |attrs| && forall j :: 0 <= j < i + 1 ==> r[j] == next[j]
    ensures r[..i] + attrs[i..] == attrs && r[i].1 == v
  {
    assert forall j :: 0 <= j < i ==> r[j] == attrs[j];
  }

  /** A value after `i` sees the same dict whether or not the value at `i` counts as rewritten. */
  lemma RewrittenLater(attrs: Attrs, next: Attrs, r: Attrs, i: nat, v: string, j: nat)
    requires i < j < |attrs| && next == attrs[i := (attrs[i].0, v)] && |r| == |attrs|
    requires Format(next[j].1, AsMap(r[..j] + next[j..])) == Ok(r[j].1)
    ensures Format(attrs[j].1, AsMap(r[..j] + attrs[j..])) == Ok(r[j].1)
  {
    assert next[j].1 == attrs[j].1 && next[j..] == attrs[j..];
  }

  /** `__produceXMLRoot` on a parsed root. */
  function ProduceRoot(root: Element, extArgs: seq<string>): Outcome<Element> {
    var ctx :- Merge(root.attrib, extArgs);
    if |ctx| == 0 then Ok(root.(attrib := ctx))
    else
      var text :- Format(root.text, AsMap(ctx));
      var attrib :- FormatOwnAttrs(ctx, 0);
      var children :- FormatForest(root.children, AsMap(attrib));
      Ok(Element(root.tag, attrib, text, children))
  }

  /** `__produceXMLRoot` as the source runs it: the root's own attributes are rewritten in place. */
  method ProduceXmlRoot(root: Element, extArgs: seq<string>) returns (r: Outcome<Element>)
    ensures r == ProduceRoot(root, extArgs)
  {
    var merged := Merge(root.attrib, extArgs);
    if merged.Err? {
      return Err(merged.error);
    }
    var attrs := merged.value;
    if |attrs| == 0 {
      return Ok(root.(attrib := attrs));
    }
    var text := Format(root.text, AsMap(attrs));
    if text.Err? {
      return Err(text.error);
    }
    var i := 0;
    while i < |attrs|
      invariant i <= |attrs| == |merged.value|
      invariant FormatOwnAttrs(attrs, i) == FormatOwnAttrs(merged.value, 0)
    {
      var v := Format(attrs[i].1, AsMap(attrs));
      if v.Err? {
        return Err(v.error);
      }
      attrs := attrs[i := (attrs[i].0, v.value)];
      i := i + 1;
    }
    var children := FormatForest(root.children, AsMap(attrs));
    if children.Err? {
      return Err(children.error);
    }
    r := Ok(Element(root.tag, attrs, text.value, children.value));
  }

  /** With no attributes and no arguments nothing is substituted, braces included. */
  lemma ProduceRootWithoutContext(root: Element)
    requires root.attrib == []
    ensures ProduceRoot(root, []) == Ok(root)
  {
  }

  /**
   * A produced root: its text formatted under the merged context; its keys those of the merged
   * context, each value formatted against the dict as rewritten up to it; and every child subtree
   * formatted under the root's attributes as rewritten.
   */
  lemma ProduceRootShape(root: Element, extArgs: seq<string>)
    requires ProduceRoot(root, extArgs).Ok?
    ensures var ctx := Merge(root.attrib, extArgs).value; var r := ProduceRoot(root, extArgs).value;
      && ctx != []
      ==> && Format(root.text, AsMap(ctx)) == Ok(r.text)
          && |r.attrib| == |ctx|
          && (forall i :: 0 <= i < |ctx| ==> r.attrib[i].0 == ctx[i].0)
          && RewrittenFrom(ctx, r.attrib, 0)
          && r.tag == root.tag
          && |r.children| == |root.children|
          && forall i :: 0 <= i < |root.children| ==> Templated(root.children[i], r.children[i], AsMap(r.attrib))
  {
    var ctx := Merge(root.attrib, extArgs).value;
    if ctx != [] {
      FormatOwnAttrsValues(ctx, 0);
    }
  }

  /** The root's attributes in the example below: the second is formatted against the first. */
  lemma AliasAttrsStep(attrs: Attrs, attrs': Attrs)
    requires attrs == [("a", "1"), ("b", "{a}")] && attrs' == [("a", "1"), ("b", "1")]
    ensures FormatOwnAttrs(attrs, 0) == Ok(attrs')
  {
    assert KeywordName("a") by { assert !IsDigit("a"[0]); }
    assert UniqueKeys(attrs);
    AsMapUnique(attrs, 0);
    assert AsMap(attrs)[attrs[0].0] == "1";
    FormatPlain("1", AsMap(attrs));
    assert "{a}" == "{" + "a" + "}" + "";
    FormatField("a", "", AsMap(attrs));
    FormatPlain("", AsMap(attrs));
    assert Format("{a}", AsMap(attrs)) == Ok("1");
    assert attrs[0 := ("a", "1")] == attrs;
    assert attrs[1 := ("b", "1")] == attrs';
    assert FormatOwnAttrs(attrs', 2) == Ok(attrs');
    assert FormatOwnAttrs(attrs, 1) == Ok(attrs');
  }

  /** The child in the example below, formatted against the rewritten root attributes. */
  lemma AliasChildStep(attrs': Attrs, child: Element)
    requires attrs' == [("a", "1"), ("b", "1")] && child == Element("c", [], "{b}", [])
    ensures FormatForest([child], AsMap(attrs')) == Ok([child.(text := "1")])
  {
    assert KeywordName("b") by { assert !IsDigit("b"[0]); }
    assert UniqueKeys(attrs');
    AsMapUnique(attrs', 1);
    assert AsMap(attrs')[attrs'[1].0] == "1";
    assert "{b}" == "{" + "b" + "}" + "";
    FormatField("b", "", AsMap(attrs'));
    FormatPlain("", AsMap(attrs'));
    assert "1" + "" == "1";
    assert Format("{b}", AsMap(attrs')) == Ok("1");
    assert FormatAttrs([], AsMap(attrs')) == Ok([]);
    assert FormatForest([], AsMap(attrs')) == Ok([]);
    assert FormatTree(child, AsMap(attrs')) == Ok(child.(text := "1"));
    assert [child][1..] == [];
    assert [child.(text := "1")] + [] == [child.(text := "1")];
  }

  /** The root attributes a child sees are the rewritten ones: `{b}` becomes "1", not "{a}". */
  lemma ProduceRootAliasExample(root: Element)
    requires root == Element("r", [("a", "1"), ("b", "{a}")], "", [Element("c", [], "{b}", [])])
    ensures ProduceRoot(root, []) ==
      Ok(Element("r", [("a", "1"), ("b", "1")], "", [Element("c", [], "1", [])]))
  {
    var child := root.children[0];
    var attrs' := [("a", "1"), ("b", "1")];
    AliasAttrsStep(root.attrib, attrs');
    AliasChildStep(attrs', child);
    FormatPlain("", AsMap(root.attrib));
  }
}
