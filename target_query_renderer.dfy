/** Rendering of target-query atoms as Turtle (subject, predicate, object)
    triples (TemporalTargetQueryRenderer.java). A rendering that would throw
    in Java (a list index out of range, a failed cast, a format string with
    too few arguments) is `None`. The prefix manager's `getShortForm` is the
    parameter `sf`. */
module TargetQueryRenderer {
  import opened Wrappers

  const RDF_TYPE := "http://www.w3.org/1999/02/22-rdf-syntax-ns#type"
  const RDF_LANGSTRING := "http://www.w3.org/1999/02/22-rdf-syntax-ns#langString"
  /** The function-symbol name of a ternary triple atom. */
  const TRIPLE := "triple"

  /** Which branch of the renderer a function symbol takes: datatype
      functions, URI templates, the CONCAT operation, and any other symbol. */
  datatype SymbolKind = DatatypeSymbol | UriTemplate | Concat | Ordinary

  /** `name` stands for both `getName()` and `toString()` of the symbol. */
  datatype FunctionSymbol = FunctionSymbol(name: string, kind: SymbolKind)

  datatype Term =
    | Variable(name: string)
    | ValueConstant(value: string)
    | UriConstant(uri: string)
    | BNode(id: string)
    | Function(symbol: FunctionSymbol, terms: seq<Term>)
  {
    predicate IsConstant() {
      ValueConstant? || UriConstant? || BNode?
    }

    /** `Constant.getValue()`: the lexical value, the IRI, or the blank-node name. */
    function ConstantValue(): string
      requires IsConstant()
    {
      match this
      case ValueConstant(v) => v
      case UriConstant(u) => u
      case BNode(id) => id
    }
  }

  datatype Triple = Triple(subject: string, verb: string, obj: string)

  /** A body atom: its function symbol's name and its arguments. */
  datatype Atom = Atom(name: string, terms: seq<Term>)

  // ---------------------------------------------------------------------
  // Shortening

  /** The short form of `uri` when the prefix manager changes it, otherwise
      the full IRI in angle brackets. Either way the result is never the bare
      IRI, so Turtle never sees an unbracketed full IRI. */
  function Shorten(uri: string, sf: string -> string): (r: string)
    ensures r != uri
    ensures r == sf(uri) || r == "<" + uri + ">"
    ensures sf(uri) != uri ==> r == sf(uri)
  {
    var short := sf(uri);
    if short != uri then short else "<" + uri + ">"
  }

  // ---------------------------------------------------------------------
  // Brace escaping (appendTerms)

  /** `s.replace(c, repl)` for a one-character target. */
  function ReplaceChar(s: string, c: char, repl: string): (r: string)
    ensures c !in s ==> r == s
  {
    if s == [] then []
    else (if s[0] == c then repl else [s[0]]) + ReplaceChar(s[1..], c, repl)
  }

  /** One backslash in front of every brace. */
  function EscapeBraces(s: string): string {
    if s == [] then []
    else (if s[0] == '{' || s[0] == '}' then ['\\', s[0]] else [s[0]]) + EscapeBraces(s[1..])
  }

  /** The inverse of `EscapeBraces`: a backslash in front of a brace is
      dropped. */
  function UnescapeBraces(s: string): string {
    if |s| >= 2 && s[0] == '\\' && (s[1] == '{' || s[1] == '}') then [s[1]] + UnescapeBraces(s[2..])
    else if s == [] then []
    else [s[0]] + UnescapeBraces(s[1..])
  }

  /** The escaping applied to a constant's value: both kinds of brace get a
      backslash, but only when the value contains an opening brace. */
  function EscapeValue(s: string): string {
    if '{' in s then ReplaceChar(ReplaceChar(s, '{', "\\{"), '}', "\\}") else s
  }

  /** `appendTerms`: a constant's escaped value, a variable as "{name}";
      anything else fails the cast to `Variable`. */
  function AppendTerm(t: Term): (r: Option<string>)
    ensures r.None? <==> t.Function?
  {
    if t.IsConstant() then Some(EscapeValue(t.ConstantValue()))
    else if t.Variable? then Some("{" + t.name + "}")
    else None
  }

  lemma {:induction false} ReplaceTwice(s: string)
    ensures ReplaceChar(ReplaceChar(s, '{', "\\{"), '}', "\\}") == EscapeBraces(s)
    decreases |s|
  {
    if s != [] {
      var head := if s[0] == '{' then "\\{" else [s[0]];
      ReplaceConcat(head, ReplaceChar(s[1..], '{', "\\{"), '}', "\\}");
      ReplaceTwice(s[1..]);
    }
  }

  lemma {:induction false} ReplaceConcat(a: string, b: string, c: char, repl: string)
    ensures ReplaceChar(a + b, c, repl) == ReplaceChar(a, c, repl) + ReplaceChar(b, c, repl)
    decreases |a|
  {
    if a != [] {
      assert (a + b)[0] == a[0];
      assert (a + b)[1..] == a[1..] + b;
      ReplaceConcat(a[1..], b, c, repl);
    } else {
      assert a + b == b;
    }
  }

  /** A constant whose value contains "{" is escaped brace by brace; any
      other value, even one holding "}", is left as it is. */
  lemma EscapeValueCases(s: string)
    ensures '{' in s ==> EscapeValue(s) == EscapeBraces(s)
    ensures '{' !in s ==> EscapeValue(s) == s
  {
    ReplaceTwice(s);
  }

  lemma {:induction false} EscapeBracesStart(s: string)
    ensures EscapeBraces(s) == [] <==> s == []
    ensures s != [] ==> EscapeBraces(s)[0] != '{' && EscapeBraces(s)[0] != '}'
  {
  }

  /** Escaping loses nothing: unescaping gives the original back. */
  lemma {:induction false} UnescapeEscape(s: string)
    ensures UnescapeBraces(EscapeBraces(s)) == s
    decreases |s|
  {
    if s != [] {
      var rest := EscapeBraces(s[1..]);
      UnescapeEscape(s[1..]);
      EscapeBracesStart(s[1..]);
      if s[0] == '{' || s[0] == '}' {
        assert EscapeBraces(s) == ['\\', s[0]] + rest;
        assert (['\\', s[0]] + rest)[2..] == rest;
      } else {
        assert EscapeBraces(s) == [s[0]] + rest;
        assert ([s[0]] + rest)[1..] == rest;
      }
    }
  }

  // ---------------------------------------------------------------------
  // Nested concatenations (getNestedConcats)

  /** Both renderings, in order, or the first failure. */
  function Concat2(a: Option<string>, b: Option<string>): (r: Option<string>)
    ensures r.Some? <==> a.Some? && b.Some?
    ensures r.Some? ==> r.value == a.value + b.value
  {
    if a.Some? && b.Some? then Some(a.value + b.value) else None
  }

  lemma Concat2Assoc(a: Option<string>, b: Option<string>, c: Option<string>)
    ensures Concat2(a, Concat2(b, c)) == Concat2(Concat2(a, b), c)
  {
    if a.Some? && b.Some? && c.Some? {
      assert a.value + (b.value + c.value) == (a.value + b.value) + c.value;
    }
  }

  /** One argument of `getNestedConcats`: a function is unfolded through its
      first two arguments (a shorter list throws), anything else goes
      through `appendTerms`. */
  function ConcatPart(t: Term): Option<string>
    decreases t
  {
    if t.Function? then
      if |t.terms| < 2 then None else Concat2(ConcatPart(t.terms[0]), ConcatPart(t.terms[1]))
    else AppendTerm(t)
  }

  function NestedConcats(t1: Term, t2: Term): Option<string> {
    Concat2(ConcatPart(t1), ConcatPart(t2))
  }

  /** The leaves of a binary function tree from left to right; a function
      with fewer than two arguments is a leaf. */
  function Leaves(t: Term): seq<Term>
    decreases t
  {
    if t.Function? && |t.terms| >= 2 then Leaves(t.terms[0]) + Leaves(t.terms[1]) else [t]
  }

  /** The `appendTerms` renderings of `ls`, concatenated. */
  function LeafTexts(ls: seq<Term>): Option<string> {
    if ls == [] then Some("") else Concat2(AppendTerm(ls[0]), LeafTexts(ls[1..]))
  }

  lemma {:induction false} LeafTextsAppend(a: seq<Term>, b: seq<Term>)
    ensures LeafTexts(a + b) == Concat2(LeafTexts(a), LeafTexts(b))
    decreases |a|
  {
    if a != [] {
      assert (a + b)[0] == a[0];
      assert (a + b)[1..] == a[1..] + b;
      LeafTextsAppend(a[1..], b);
      Concat2Assoc(AppendTerm(a[0]), LeafTexts(a[1..]), LeafTexts(b));
    } else {
      assert a + b == b;
      if LeafTexts(b).Some? {
        assert "" + LeafTexts(b).value == LeafTexts(b).value;
      }
    }
  }

  lemma {:induction false} LeafTextsDefined(ls: seq<Term>)
    ensures LeafTexts(ls).Some? <==> forall i :: 0 <= i < |ls| ==> !ls[i].Function?
    decreases |ls|
  {
    if ls != [] {
      LeafTextsDefined(ls[1..]);
      assert forall i :: 1 <= i < |ls| ==> ls[i] == ls[1..][i - 1];
    }
  }

  /** A nested concatenation renders as its leaves from left to right, and it
      fails exactly when some leaf is a function with fewer than two
      arguments. */
  lemma {:induction false} ConcatPartIsLeaves(t: Term)
    ensures ConcatPart(t) == LeafTexts(Leaves(t))
    ensures ConcatPart(t).Some? <==> forall i :: 0 <= i < |Leaves(t)| ==> !Leaves(t)[i].Function?
    decreases t
  {
    if t.Function? && |t.terms| >= 2 {
      ConcatPartIsLeaves(t.terms[0]);
      ConcatPartIsLeaves(t.terms[1]);
      LeafTextsAppend(Leaves(t.terms[0]), Leaves(t.terms[1]));
    } else {
      assert Leaves(t) == [t];
      assert LeafTexts([t]) == Concat2(AppendTerm(t), LeafTexts([]));
      if AppendTerm(t).Some? {
        assert AppendTerm(t).value + "" == AppendTerm(t).value;
      }
    }
    LeafTextsDefined(Leaves(t));
  }

  // ---------------------------------------------------------------------
  // URI templates

  /** The number of "{}" placeholders, read from left to right without
      overlap as `String.replace` does. */
  function PlaceholderCount(template: string): nat {
    if |template| >= 2 && template[0] == '{' && template[1] == '}' then 1 + PlaceholderCount(template[2..])
    else if template == [] then 0
    else PlaceholderCount(template[1..])
  }

  /** `String.format(template.replace("{}", "%s"), args)`: each placeholder
      in turn takes the next argument; surplus arguments are ignored and a
      missing one throws. */
  function FillTemplate(template: string, args: seq<string>): Option<string> {
    if |template| >= 2 && template[0] == '{' && template[1] == '}' then
      if args == [] then None else Concat2(Some(args[0]), FillTemplate(template[2..], args[1..]))
    else if template == [] then Some("")
    else Concat2(Some([template[0]]), FillTemplate(template[1..], args))
  }

  /** Filling succeeds exactly when there are enough arguments. */
  lemma {:induction false} FillTemplateDefined(template: string, args: seq<string>)
    ensures FillTemplate(template, args).Some? <==> PlaceholderCount(template) <= |args|
    decreases |template|
  {
    if |template| >= 2 && template[0] == '{' && template[1] == '}' {
      if args != [] {
        FillTemplateDefined(template[2..], args[1..]);
      }
    } else if template != [] {
      FillTemplateDefined(template[1..], args);
    }
  }

  /** Arguments past the last placeholder do not change the result. */
  lemma {:induction false} FillTemplateSurplus(template: string, args: seq<string>, more: seq<string>)
    requires PlaceholderCount(template) <= |args|
    ensures FillTemplate(template, args + more) == FillTemplate(template, args)
    decreases |template|
  {
    if |template| >= 2 && template[0] == '{' && template[1] == '}' {
      assert (args + more)[1..] == args[1..] + more;
      FillTemplateSurplus(template[2..], args[1..], more);
    } else if template != [] {
      FillTemplateSurplus(template[1..], args, more);
    }
  }

  /** Placeholders are filled in order: giving every placeholder "{}" back
      reproduces the template character for character. */
  lemma {:induction false} FillTemplateIdentity(template: string, n: nat)
    requires PlaceholderCount(template) <= n
    ensures FillTemplate(template, seq(n, _ => "{}")) == Some(template)
    decreases |template|
  {
    var args := seq(n, _ => "{}");
    if |template| >= 2 && template[0] == '{' && template[1] == '}' {
      assert args[1..] == seq(n - 1, _ => "{}");
      FillTemplateIdentity(template[2..], n - 1);
      assert template == "{}" + template[2..];
    } else if template != [] {
      FillTemplateIdentity(template[1..], n);
      assert template == [template[0]] + template[1..];
    }
  }

  /** The display names of the variable arguments, in order. */
  function VariableNames(terms: seq<Term>): (r: seq<string>)
    ensures |r| <= |terms|
  {
    if terms == [] then []
    else (if terms[0].Variable? then ["{" + terms[0].name + "}"] else []) + VariableNames(terms[1..])
  }

  /** The loop over the arguments appends "{name}" for each variable and
      skips every other term. */
  lemma {:induction false} VariableNamesSnoc(terms: seq<Term>, t: Term)
    ensures VariableNames(terms + [t]) ==
            VariableNames(terms) + (if t.Variable? then ["{" + t.name + "}"] else [])
    decreases |terms|
  {
    if terms == [] {
      assert [t][1..] == [];
    } else {
      assert (terms + [t])[0] == terms[0];
      assert (terms + [t])[1..] == terms[1..] + [t];
      VariableNamesSnoc(terms[1..], t);
    }
  }

  /** Every collected name is a variable argument's, and every variable
      argument's name is collected. */
  lemma {:induction false} VariableNamesMembers(terms: seq<Term>)
    ensures forall j :: 0 <= j < |VariableNames(terms)| ==>
              exists i :: 0 <= i < |terms| && terms[i].Variable? &&
                          VariableNames(terms)[j] == "{" + terms[i].name + "}"
    ensures forall i :: 0 <= i < |terms| && terms[i].Variable? ==>
              "{" + terms[i].name + "}" in VariableNames(terms)
    decreases |terms|
  {
    if terms != [] {
      VariableNamesMembers(terms[1..]);
      var head := if terms[0].Variable? then ["{" + terms[0].name + "}"] else [];
      var r := VariableNames(terms);
      assert r == head + VariableNames(terms[1..]);
      forall j | 0 <= j < |r|
        ensures exists i :: 0 <= i < |terms| && terms[i].Variable? && r[j] == "{" + terms[i].name + "}"
      {
        if j < |head| {
          assert terms[0].Variable? && r[j] == "{" + terms[0].name + "}";
        } else {
          var k :| 0 <= k < |terms[1..]| && terms[1..][k].Variable? &&
                   VariableNames(terms[1..])[j - |head|] == "{" + terms[1..][k].name + "}";
          assert terms[k + 1] == terms[1..][k];
          assert r[j] == VariableNames(terms[1..])[j - |head|];
          assert terms[k + 1].Variable? && r[j] == "{" + terms[k + 1].name + "}";
        }
      }
      forall i | 0 <= i < |terms| && terms[i].Variable?
        ensures "{" + terms[i].name + "}" in r
      {
        if i > 0 {
          assert terms[1..][i - 1] == terms[i];
        }
      }
    } else {
      assert VariableNames(terms) == [];
    }
  }

  /** The rendering of an expanded URI template: rdf:type becomes "a". */
  function TemplateIri(uri: string, sf: string -> string): string {
    if uri == RDF_TYPE then "a" else Shorten(uri, sf)
  }

  // ---------------------------------------------------------------------
  // Separated argument lists

  /** The argument renderings separated by `sep`. */
  function Join(parts: seq<string>, sep: string): string {
    if parts == [] then ""
    else if |parts| == 1 then parts[0]
    else parts[0] + sep + Join(parts[1..], sep)
  }

  /** One step of the `separator` loop: once something has been written,
      each further part is preceded by the separator. */
  lemma {:induction false} JoinSnoc(parts: seq<string>, p: string, sep: string)
    requires parts != []
    ensures Join(parts + [p], sep) == Join(parts, sep) + sep + p
    decreases |parts|
  {
    if |parts| == 1 {
      assert parts + [p] == [parts[0], p];
      assert [parts[0], p][1..] == [p];
    } else {
      assert (parts + [p])[1..] == parts[1..] + [p];
      JoinSnoc(parts[1..], p, sep);
    }
  }

  /** The renderings of `ts`, or `None` when one of them fails. */
  function AllDefined(ds: seq<Option<string>>): (r: Option<seq<string>>)
    ensures r.Some? <==> forall i :: 0 <= i < |ds| ==> ds[i].Some?
    ensures r.Some? ==> |r.value| == |ds| && forall i :: 0 <= i < |ds| ==> r.value[i] == ds[i].value
  {
    if forall i :: 0 <= i < |ds| ==> ds[i].Some? then Some(seq(|ds|, i requires 0 <= i < |ds| => ds[i].value))
    else None
  }

  // ---------------------------------------------------------------------
  // Terms (getDisplayName)

  /** The Turtle text of a term. */
  function DisplayName(t: Term, sf: string -> string): (r: Option<string>)
    ensures !t.Function? ==> r.Some?
    decreases t
  {
    match t
    case Variable(name) => Some("{" + name + "}")
    case UriConstant(uri) => Some(Shorten(uri, sf))
    case ValueConstant(value) => Some("\"" + value + "\"")
    case BNode(id) => Some(id)
    case Function(symbol, terms) =>
      var fname := sf(symbol.name);
      match symbol.kind
      case DatatypeSymbol =>
        if symbol.name == RDF_LANGSTRING then
          if |terms| < 2 then None
          else
            var lang := if terms[1].ValueConstant? then Some(terms[1].value) else DisplayName(terms[1], sf);
            Concat2(Concat2(DisplayName(terms[0], sf), Some("@")), lang)
        else if |terms| < 1 then None
        else Concat2(DisplayName(terms[0], sf), Some("^^" + fname))
      case UriTemplate =>
        if |terms| < 1 then None
        else if terms[0].Variable? then Some("<{" + terms[0].name + "}>")
        else if !terms[0].ValueConstant? then None
        else
          var uri := FillTemplate(terms[0].value, VariableNames(terms));
          if uri.None? then None else Some(TemplateIri(uri.value, sf))
      case Concat =>
        if |terms| < 2 then None
        else Concat2(Concat2(Some("\""), NestedConcats(terms[0], terms[1])), Some("\""))
      case Ordinary =>
        var args := AllDefined(seq(|terms|, i requires 0 <= i < |terms| => DisplayName(terms[i], sf)));
        if args.None? then None else Some(fname + "(" + Join(args.value, ", ") + ")")
  }

  /** The terms the renderer handles without an exception, independently of
      the prefix manager. */
  predicate Renderable(t: Term)
    decreases t
  {
    if !t.Function? then true
    else
      var terms := t.terms;
      match t.symbol.kind
      case DatatypeSymbol =>
        if t.symbol.name == RDF_LANGSTRING then
          |terms| >= 2 && Renderable(terms[0]) && (terms[1].ValueConstant? || Renderable(terms[1]))
        else |terms| >= 1 && Renderable(terms[0])
      case UriTemplate =>
        |terms| >= 1 &&
        (terms[0].Variable? ||
         (terms[0].ValueConstant? && PlaceholderCount(terms[0].value) <= |VariableNames(terms)|))
      case Concat =>
        |terms| >= 2 &&
        (forall i :: 0 <= i < |Leaves(terms[0])| ==> !Leaves(terms[0])[i].Function?) &&
        (forall i :: 0 <= i < |Leaves(terms[1])| ==> !Leaves(terms[1])[i].Function?)
      case Ordinary => forall i :: 0 <= i < |terms| ==> Renderable(terms[i])
  }

  /** The renderer fails exactly on terms that are not `Renderable`,
      whatever the prefix manager does. */
  lemma {:induction false} DisplayNameDefined(t: Term, sf: string -> string)
    ensures DisplayName(t, sf).Some? <==> Renderable(t)
    decreases t
  {
    if t.Function? {
      var terms := t.terms;
      match t.symbol.kind
      case DatatypeSymbol =>
        if |terms| >= 1 {
          DisplayNameDefined(terms[0], sf);
        }
        if |terms| >= 2 {
          DisplayNameDefined(terms[1], sf);
        }
      case UriTemplate =>
        if |terms| >= 1 && terms[0].ValueConstant? {
          FillTemplateDefined(terms[0].value, VariableNames(terms));
        }
      case Concat =>
        if |terms| >= 2 {
          ConcatPartIsLeaves(terms[0]);
          ConcatPartIsLeaves(terms[1]);
        }
      case Ordinary =>
        var ds := seq(|terms|, i requires 0 <= i < |terms| => DisplayName(terms[i], sf));
        forall i | 0 <= i < |terms|
          ensures ds[i].Some? <==> Renderable(terms[i])
        {
          DisplayNameDefined(terms[i], sf);
        }
    }
  }

  /** Variables render as "{name}", value constants in double quotes, blank
      nodes as their name, and a URI constant is never written as its bare
      IRI; a language-tagged literal is its value, "@" and the tag (a constant
      tag raw), any other datatype literal its value, "^^" and the short
      datatype name. */
  lemma SimpleDisplay(t: Term, sf: string -> string)
    ensures t.Variable? ==> DisplayName(t, sf) == Some("{" + t.name + "}")
    ensures t.ValueConstant? ==> DisplayName(t, sf) == Some("\"" + t.value + "\"")
    ensures t.BNode? ==> DisplayName(t, sf) == Some(t.id)
    ensures t.UriConstant? ==> DisplayName(t, sf).value != t.uri &&
                               (sf(t.uri) != t.uri ==> DisplayName(t, sf) == Some(sf(t.uri)))
    ensures t.Function? && t.symbol.kind == DatatypeSymbol && t.symbol.name == RDF_LANGSTRING &&
            |t.terms| >= 2 && t.terms[1].ValueConstant? && DisplayName(t.terms[0], sf).Some? ==>
              DisplayName(t, sf) == Some(DisplayName(t.terms[0], sf).value + "@" + t.terms[1].value)
    ensures t.Function? && t.symbol.kind == DatatypeSymbol && t.symbol.name != RDF_LANGSTRING &&
            |t.terms| >= 1 && DisplayName(t.terms[0], sf).Some? ==>
              DisplayName(t, sf) == Some(DisplayName(t.terms[0], sf).value + "^^" + sf(t.symbol.name))
  {
    if t.Function? && t.symbol.kind == DatatypeSymbol && |t.terms| >= 1 && DisplayName(t.terms[0], sf).Some? {
      var v := DisplayName(t.terms[0], sf).value;
      assert v + ("^^" + sf(t.symbol.name)) == v + "^^" + sf(t.symbol.name);
    }
  }

  /** A CONCAT renders as the texts of its leaves, left to right, inside
      double quotes. */
  lemma ConcatDisplay(t: Term, sf: string -> string)
    requires t.Function? && t.symbol.kind == Concat && |t.terms| >= 2
    requires Renderable(t)
    ensures LeafTexts(Leaves(t)).Some?
    ensures DisplayName(t, sf) == Some("\"" + LeafTexts(Leaves(t)).value + "\"")
  {
    ConcatPartIsLeaves(t);
  }

  /** A URI template with a constant template renders as its placeholders
      filled with the variable arguments, then as "a" for rdf:type or
      shortened. */
  lemma TemplateDisplay(t: Term, sf: string -> string)
    requires t.Function? && t.symbol.kind == UriTemplate && |t.terms| >= 1
    requires t.terms[0].ValueConstant?
    requires PlaceholderCount(t.terms[0].value) <= |VariableNames(t.terms)|
    ensures FillTemplate(t.terms[0].value, VariableNames(t.terms)).Some?
    ensures var uri := FillTemplate(t.terms[0].value, VariableNames(t.terms)).value;
            DisplayName(t, sf) == Some(if uri == RDF_TYPE then "a" else Shorten(uri, sf))
  {
    FillTemplateDefined(t.terms[0].value, VariableNames(t.terms));
  }

  /** An ordinary function renders as its short name followed by its
      arguments' renderings, comma-separated, in parentheses. */
  lemma OrdinaryDisplay(t: Term, sf: string -> string, parts: seq<string>)
    requires t.Function? && t.symbol.kind == Ordinary
    requires |parts| == |t.terms|
    requires forall i :: 0 <= i < |parts| ==> DisplayName(t.terms[i], sf) == Some(parts[i])
    ensures DisplayName(t, sf) == Some(sf(t.symbol.name) + "(" + Join(parts, ", ") + ")")
  {
    var ds := seq(|t.terms|, i requires 0 <= i < |t.terms| => DisplayName(t.terms[i], sf));
    assert AllDefined(ds).value == parts;
  }

  /** An ordinary function whose argument fails to render fails too. */
  lemma OrdinaryDisplayFails(t: Term, sf: string -> string, k: nat)
    requires t.Function? && t.symbol.kind == Ordinary
    requires k < |t.terms| && DisplayName(t.terms[k], sf).None?
    ensures DisplayName(t, sf).None?
  {
    var ds := seq(|t.terms|, i requires 0 <= i < |t.terms| => DisplayName(t.terms[i], sf));
    assert ds[k].None?;
  }

  /** A template given by a variable is written as that variable inside
      angle brackets. */
  lemma VariableTemplateDisplay(t: Term, sf: string -> string)
    requires t.Function? && t.symbol.kind == UriTemplate && |t.terms| >= 1
    requires t.terms[0].Variable?
    ensures DisplayName(t, sf) == Some("<{" + t.terms[0].name + "}>")
  {
  }

  // ---------------------------------------------------------------------
  // Atoms (encode)

  /** `isUnary`: class atoms of the temporal model carry five arguments. */
  predicate IsUnary(a: Atom) {
    |a.terms| == 5
  }

  /** The triple `encode` hands to the Turtle writer for one atom. */
  function AtomTriple(a: Atom, sf: string -> string): Option<Triple> {
    if IsUnary(a) then
      var s := DisplayName(a.terms[0], sf);
      if s.None? then None else Some(Triple(s.value, "a", Shorten(a.name, sf)))
    else if a.name == TRIPLE then
      if |a.terms| < 3 then None
      else
        var s := DisplayName(a.terms[0], sf);
        var p := DisplayName(a.terms[1], sf);
        var o := DisplayName(a.terms[2], sf);
        if s.None? || p.None? || o.None? then None else Some(Triple(s.value, p.value, o.value))
    else if |a.terms| < 2 then None
    else
      var s := DisplayName(a.terms[0], sf);
      var o := DisplayName(a.terms[1], sf);
      if s.None? || o.None? then None else Some(Triple(s.value, Shorten(a.name, sf), o.value))
  }

  /** The arguments the three positions of an atom's triple come from. */
  function TripleSources(a: Atom): seq<nat> {
    if IsUnary(a) then [0]
    else if a.name == TRIPLE then [0, 1, 2]
    else [0, 1]
  }

  /** An atom renders exactly when it has the arguments its kind reads and
      each of them is renderable; a class or property name is never written
      as a bare full IRI. */
  lemma AtomTripleDefined(a: Atom, sf: string -> string)
    ensures AtomTriple(a, sf).Some? <==>
            (forall k :: k in TripleSources(a) ==> k < |a.terms| && Renderable(a.terms[k]))
    ensures AtomTriple(a, sf).Some? && IsUnary(a) ==>
            AtomTriple(a, sf).value.verb == "a" && AtomTriple(a, sf).value.obj != a.name
    ensures AtomTriple(a, sf).Some? && !IsUnary(a) && a.name != TRIPLE ==>
            AtomTriple(a, sf).value.verb != a.name
  {
    forall k | k in TripleSources(a) && k < |a.terms|
      ensures DisplayName(a.terms[k], sf).Some? <==> Renderable(a.terms[k])
    {
      DisplayNameDefined(a.terms[k], sf);
    }
  }

  /** `encode`: the triples of the body atoms, in order, ready for the
      Turtle writer; `None` when some atom cannot be rendered. */
  method Encode(body: seq<Atom>, sf: string -> string) returns (r: Option<seq<Triple>>)
    ensures r.Some? <==> forall i :: 0 <= i < |body| ==> AtomTriple(body[i], sf).Some?
    ensures r.Some? ==> |r.value| == |body| &&
                        forall i :: 0 <= i < |body| ==> r.value[i] == AtomTriple(body[i], sf).value
  {
    var triples: seq<Triple> := [];
    for i := 0 to |body|
      invariant |triples| == i
      invariant forall j :: 0 <= j < i ==> AtomTriple(body[j], sf).Some? && triples[j] == AtomTriple(body[j], sf).value
    {
      var t := AtomTriple(body[i], sf);
      if t.None? {
        return None;
      }
      triples := triples + [t.value];
    }
    return Some(triples);
  }
}
