// Placeholders {{name}} in translated texts (client/src/i18n/I18nProvider.tsx:29-35).
module Templates {

  datatype Option<T> = None | Some(value: T)

  type Vars = map<string, string>

  // ---- template.replace(/\{\{(\w+)\}\}/g, ...) ----

  predicate IsWord(c: char) {
    'a' <= c <= 'z' || 'A' <= c <= 'Z' || '0' <= c <= '9' || c == '_'
  }

  predicate AllWord(s: string) {
    forall i :: 0 <= i < |s| ==> IsWord(s[i])
  }

  /** Where the word characters that begin `s` end. */
  function WordLength(s: string): (n: nat)
    ensures n <= |s| && AllWord(s[..n])
  {
    if s == "" || !IsWord(s[0]) then 0
    else
      var n := WordLength(s[1..]) + 1;
      assert forall i :: 1 <= i < n ==> s[i] == s[1..][i - 1];
      n
  }

  /** The name of the placeholder that `s` begins with, if it begins with one. */
  function NameAtStart(s: string): (name: Option<string>)
    ensures name.Some? ==> 0 < |name.value| <= |s| - 4
  {
    if |s| < 2 || s[..2] != "{{" then None
    else
      var n := WordLength(s[2..]);
      if n >= 1 && n + 4 <= |s| && s[n + 2..n + 4] == "}}" then Some(s[2..n + 2]) else None
  }

  lemma NameAtStartShape(s: string)
    requires NameAtStart(s).Some?
    ensures var name := NameAtStart(s).value;
            AllWord(name) && s == "{{" + name + "}}" + s[|name| + 4..]
  {
    var n := WordLength(s[2..]);
    assert s[2..n + 2] == s[2..][..n];
    assert s == s[..2] + s[2..n + 2] + s[n + 2..n + 4] + s[n + 4..];
  }

  function Value(name: string, vars: Vars): string {
    if name in vars then vars[name] else "{{" + name + "}}"
  }

  /** What begins at each position of the template. */
  predicate Fits(names: seq<Option<string>>, s: string) {
    |names| == |s| && forall i :: 0 <= i < |s| && names[i].Some? ==> 0 < |names[i].value| <= |s| - i - 4
  }

  function Names(s: string): (names: seq<Option<string>>)
    ensures Fits(names, s) && forall i :: 0 <= i < |s| ==> names[i] == NameAtStart(s[i..])
  {
    seq(|s|, i requires 0 <= i < |s| => NameAtStart(s[i..]))
  }

  /** The first position at or after `from` where a placeholder begins. */
  function NextMatch(names: seq<Option<string>>, from: nat): (at: Option<nat>)
    requires from <= |names|
    ensures at.Some? ==> from <= at.value < |names| && names[at.value].Some?
    ensures forall i :: from <= i < |names| && (at.None? || i < at.value) ==> names[i].None?
    decreases |names| - from
  {
    if from == |names| then None
    else if names[from].Some? then Some(from)
    else NextMatch(names, from + 1)
  }

  /** The global replace from `from` on: copy up to the leftmost match, replace it, go on behind it. */
  function Replace(s: string, names: seq<Option<string>>, value: string -> string, from: nat): string
    requires from <= |s| && Fits(names, s)
    decreases |s| - from, 1
  {
    match NextMatch(names, from)
    case None => s[from..]
    case Some(at) => s[from..at] + ReplaceMatch(s, names, value, at)
  }

  function ReplaceMatch(s: string, names: seq<Option<string>>, value: string -> string, at: nat): string
    requires at < |s| && Fits(names, s) && names[at].Some?
    decreases |s| - at, 0
  {
    value(names[at].value) + Replace(s, names, value, at + |names[at].value| + 4)
  }

  function Callback(vars: Vars): string -> string {
    name => Value(name, vars)
  }

  function Interpolate(template: string, vars: Vars): string {
    Replace(template, Names(template), Callback(vars), 0)
  }

  // ---- Tokens ----

  datatype Token = Text(c: char) | Name(name: string)

  function Parse(s: string): seq<Token>
    decreases |s|
  {
    if s == "" then []
    else match NameAtStart(s)
      case Some(name) => [Name(name)] + Parse(s[|name| + 4..])
      case None => [Text(s[0])] + Parse(s[1..])
  }

  function PrintToken(token: Token, vars: Vars): string {
    match token
    case Text(c) => [c]
    case Name(name) => Value(name, vars)
  }

  function Print(tokens: seq<Token>, vars: Vars): string {
    if tokens == [] then "" else PrintToken(tokens[0], vars) + Print(tokens[1..], vars)
  }

  /** Printing token by token with any replacement for the names. */
  function Render(tokens: seq<Token>, value: string -> string): string {
    if tokens == [] then ""
    else (match tokens[0] case Text(c) => [c] case Name(name) => value(name)) + Render(tokens[1..], value)
  }

  lemma CopyOne(s: string, from: nat, at: nat, rest: string)
    requires from < at <= |s|
    ensures s[from..at] + rest == [s[from]] + (s[from + 1..at] + rest)
  {
    assert s[from..at] == [s[from]] + s[from + 1..at];
  }

  /** A character where no placeholder begins is copied. */
  lemma ReplaceSkips(s: string, names: seq<Option<string>>, value: string -> string, from: nat)
    requires from < |s| && Fits(names, s) && names[from].None?
    ensures Replace(s, names, value, from) == [s[from]] + Replace(s, names, value, from + 1)
  {
    var next := NextMatch(names, from + 1);
    assert NextMatch(names, from) == next;
    if next.Some? {
      CopyOne(s, from, next.value, ReplaceMatch(s, names, value, next.value));
    } else {
      assert s[from..] == [s[from]] + s[from + 1..];
    }
  }

  /** A placeholder is replaced and jumped over. */
  lemma ReplaceMatches(s: string, names: seq<Option<string>>, value: string -> string, from: nat)
    requires from < |s| && Fits(names, s) && names[from].Some?
    ensures Replace(s, names, value, from) ==
            value(names[from].value) + Replace(s, names, value, from + |names[from].value| + 4)
  {
    assert s[from..from] == "";
  }

  lemma ParseSuffix(s: string, from: nat)
    requires from < |s|
    ensures Parse(s[from..]) ==
            match NameAtStart(s[from..])
            case Some(name) => [Name(name)] + Parse(s[from + |name| + 4..])
            case None => [Text(s[from])] + Parse(s[from + 1..])
  {
    var rest := s[from..];
    assert rest[1..] == s[from + 1..];
    if NameAtStart(rest).Some? {
      var n := |NameAtStart(rest).value| + 4;
      assert rest[n..] == s[from + n..];
    }
  }

  lemma RenderCons(token: Token, rest: seq<Token>, value: string -> string)
    ensures Render([token] + rest, value) ==
            (match token case Text(c) => [c] case Name(name) => value(name)) + Render(rest, value)
  {
    assert ([token] + rest)[1..] == rest;
  }

  lemma RenderFromName(s: string, value: string -> string, from: nat, name: string)
    requires from < |s| && NameAtStart(s[from..]) == Some(name)
    ensures Render(Parse(s[from..]), value) == value(name) + Render(Parse(s[from + |name| + 4..]), value)
  {
    ParseSuffix(s, from);
    RenderCons(Name(name), Parse(s[from + |name| + 4..]), value);
  }

  lemma RenderFromText(s: string, value: string -> string, from: nat)
    requires from < |s| && NameAtStart(s[from..]).None?
    ensures Render(Parse(s[from..]), value) == [s[from]] + Render(Parse(s[from + 1..]), value)
  {
    ParseSuffix(s, from);
    RenderCons(Text(s[from]), Parse(s[from + 1..]), value);
  }

  /** The two agree at a position when they do behind what begins there. */
  ghost predicate Agree(s: string, names: seq<Option<string>>, value: string -> string, from: nat)
    requires from <= |s| && Fits(names, s)
  {
    Replace(s, names, value, from) == Render(Parse(s[from..]), value)
  }

  lemma AgreeAtName(s: string, names: seq<Option<string>>, value: string -> string, from: nat)
    requires from < |s| && Fits(names, s) && names[from] == NameAtStart(s[from..]) && names[from].Some?
    requires Agree(s, names, value, from + |names[from].value| + 4)
    ensures Agree(s, names, value, from)
  {
    RenderFromName(s, value, from, names[from].value);
    ReplaceMatches(s, names, value, from);
  }

  lemma AgreeAtText(s: string, names: seq<Option<string>>, value: string -> string, from: nat)
    requires from < |s| && Fits(names, s) && names[from] == NameAtStart(s[from..]) && names[from].None?
    requires Agree(s, names, value, from + 1)
    ensures Agree(s, names, value, from)
  {
    RenderFromText(s, value, from);
    ReplaceSkips(s, names, value, from);
  }

  lemma {:induction false} ReplaceIsRender(s: string, names: seq<Option<string>>, value: string -> string, from: nat)
    requires from <= |s| && Fits(names, s) && forall i :: 0 <= i < |s| ==> names[i] == NameAtStart(s[i..])
    ensures Agree(s, names, value, from)
    decreases |s| - from
  {
    if from == |s| {
      assert s[from..] == "";
    } else if names[from].Some? {
      ReplaceIsRender(s, names, value, from + |names[from].value| + 4);
      AgreeAtName(s, names, value, from);
    } else {
      ReplaceIsRender(s, names, value, from + 1);
      AgreeAtText(s, names, value, from);
    }
  }

  lemma {:induction false} PrintIsRender(tokens: seq<Token>, vars: Vars)
    ensures Render(tokens, Callback(vars)) == Print(tokens, vars)
  {
    if tokens != [] {
      PrintIsRender(tokens[1..], vars);
    }
  }

  /** The regular-expression replace is parsing into text and names and printing token by token. */
  lemma InterpolateIsParsePrint(template: string, vars: Vars)
    ensures Interpolate(template, vars) == Print(Parse(template), vars)
  {
    ReplaceIsRender(template, Names(template), Callback(vars), 0);
    assert template[0..] == template;
    PrintIsRender(Parse(template), vars);
  }

  lemma PrintCons(token: Token, rest: seq<Token>, vars: Vars)
    ensures Print([token] + rest, vars) == PrintToken(token, vars) + Print(rest, vars)
  {
    assert ([token] + rest)[1..] == rest;
  }

  /** Nothing bound, nothing changed. */
  lemma {:induction false} NoVarsIsIdentity(s: string, vars: Vars)
    requires forall token :: token in Parse(s) && token.Name? ==> token.name !in vars
    ensures Print(Parse(s), vars) == s
    decreases |s|
  {
    if s != "" {
      var next := NameAtStart(s);
      var n := if next.Some? then |next.value| + 4 else 1;
      var first, rest := if next.Some? then Name(next.value) else Text(s[0]), Parse(s[n..]);
      assert Parse(s) == [first] + rest;
      assert first in Parse(s);
      NoVarsIsIdentity(s[n..], vars);
      PrintCons(first, rest, vars);
      if next.Some? {
        NameAtStartShape(s);
      } else {
        assert s == [s[0]] + s[1..];
      }
    }
  }

  /** With none of its names bound a template comes out as it is; so the early return for
      absent variables is the same as an empty set of them, as long as own entries are all
      there are (the source also finds names inherited from Object.prototype). */
  lemma UnboundIsIdentity(template: string, vars: Vars)
    requires forall token :: token in Parse(template) && token.Name? ==> token.name !in vars
    ensures Interpolate(template, vars) == template
  {
    InterpolateIsParsePrint(template, vars);
    NoVarsIsIdentity(template, vars);
  }

  // ---- Texts without braces ----

  predicate Plain(s: string) {
    '{' !in s && '}' !in s
  }

  predicate PlainToken(token: Token) {
    match token
    case Text(c) => c != '{' && c != '}'
    case Name(name) => name != "" && AllWord(name)
  }

  predicate PlainTokens(tokens: seq<Token>) {
    forall k :: 0 <= k < |tokens| ==> PlainToken(tokens[k])
  }

  predicate PlainValues(vars: Vars) {
    forall name :: name in vars ==> Plain(vars[name])
  }

  function Chars(s: string): seq<Token> {
    if s == "" then [] else [Text(s[0])] + Chars(s[1..])
  }

  /** What is left to substitute once `vars` are. */
  function Bind(tokens: seq<Token>, vars: Vars): seq<Token> {
    if tokens == [] then []
    else
      var first := tokens[0];
      (if first.Name? && first.name in vars then Chars(vars[first.name]) else [first]) + Bind(tokens[1..], vars)
  }

  lemma PlainCharIsText(s: string)
    requires s != "" && s[0] != '{'
    ensures NameAtStart(s).None?
  {
    assert |s| >= 2 ==> s[..2][0] == s[0];
  }

  lemma ParsePlainChar(c: char, rest: string)
    requires c != '{'
    ensures Parse([c] + rest) == [Text(c)] + Parse(rest)
  {
    PlainCharIsText([c] + rest);
    assert ([c] + rest)[1..] == rest;
  }

  lemma {:induction false} WordLengthOf(name: string, rest: string)
    requires AllWord(name) && (rest == "" || !IsWord(rest[0]))
    ensures WordLength(name + rest) == |name|
  {
    if name != "" {
      assert (name + rest)[1..] == name[1..] + rest;
      WordLengthOf(name[1..], rest);
    } else {
      assert name + rest == rest;
    }
  }

  lemma ParseName(name: string, rest: string)
    requires name != "" && AllWord(name)
    ensures Parse("{{" + name + "}}" + rest) == [Name(name)] + Parse(rest)
  {
    var s := "{{" + name + "}}" + rest;
    assert s[2..] == name + ("}}" + rest);
    WordLengthOf(name, "}}" + rest);
    assert s[|name| + 2..|name| + 4] == "}}";
    assert s[2..|name| + 2] == name;
    assert s[..2] == "{{";
    assert NameAtStart(s) == Some(name);
    assert s[|name| + 4..] == rest;
  }

  lemma {:induction false} ParsePlainText(value: string, rest: string)
    requires Plain(value)
    ensures Parse(value + rest) == Chars(value) + Parse(rest)
  {
    if value != "" {
      var tail := value[1..];
      assert value + rest == [value[0]] + (tail + rest);
      ParsePlainChar(value[0], tail + rest);
      ParsePlainText(tail, rest);
      assert [Text(value[0])] + (Chars(tail) + Parse(rest)) == Chars(value) + Parse(rest);
    } else {
      assert value + rest == rest;
    }
  }

  /** Substituting and parsing again finds exactly the names left, when neither the text nor
      the values hold braces. */
  lemma {:induction false} ParseAfterPrint(tokens: seq<Token>, vars: Vars)
    requires PlainTokens(tokens) && PlainValues(vars)
    ensures Parse(Print(tokens, vars)) == Bind(tokens, vars)
  {
    if tokens != [] {
      var rest := Print(tokens[1..], vars);
      ParseAfterPrint(tokens[1..], vars);
      assert PlainToken(tokens[0]);
      match tokens[0]
      case Text(c) => ParsePlainChar(c, rest);
      case Name(name) =>
        if name in vars {
          ParsePlainText(vars[name], rest);
        } else {
          ParseName(name, rest);
        }
    }
  }

  /** Parsing inverts printing on plain tokens. */
  lemma ParsePrintRoundTrip(tokens: seq<Token>)
    requires PlainTokens(tokens)
    ensures Parse(Print(tokens, map[])) == tokens
  {
    ParseAfterPrint(tokens, map[]);
    BindNothing(tokens);
  }

  lemma {:induction false} BindNothing(tokens: seq<Token>)
    ensures Bind(tokens, map[]) == tokens
  {
    if tokens != [] {
      BindNothing(tokens[1..]);
      assert tokens == [tokens[0]] + tokens[1..];
    }
  }

  lemma {:induction false} PrintChars(s: string, rest: seq<Token>, vars: Vars)
    ensures Print(Chars(s) + rest, vars) == s + Print(rest, vars)
  {
    if s != "" {
      PrintChars(s[1..], rest, vars);
      assert (Chars(s) + rest)[1..] == Chars(s[1..]) + rest;
      assert s == [s[0]] + s[1..];
    } else {
      assert Chars(s) + rest == rest;
    }
  }

  lemma {:induction false} PrintBound(tokens: seq<Token>, first: Vars, second: Vars)
    ensures Print(Bind(tokens, first), second) == Print(tokens, second + first)
  {
    if tokens != [] {
      PrintBound(tokens[1..], first, second);
      var rest := Bind(tokens[1..], first);
      if tokens[0].Name? && tokens[0].name in first {
        PrintChars(first[tokens[0].name], rest, second);
      } else {
        assert ([tokens[0]] + rest)[1..] == rest;
      }
    }
  }

  /** Substituting two sets of variables in turn is substituting their union, the first set
      winning, when the template's text and the first set's values hold no braces. */
  lemma TwoPassesAreOne(template: string, first: Vars, second: Vars)
    requires PlainTokens(Parse(template)) && PlainValues(first)
    ensures Interpolate(Interpolate(template, first), second) == Interpolate(template, second + first)
  {
    InterpolateIsParsePrint(template, first);
    InterpolateIsParsePrint(Interpolate(template, first), second);
    InterpolateIsParsePrint(template, second + first);
    ParseAfterPrint(Parse(template), first);
    PrintBound(Parse(template), first, second);
  }

  lemma OneName(name: string, vars: Vars)
    requires name != "" && AllWord(name)
    ensures Interpolate("{{" + name + "}}", vars) == Value(name, vars)
  {
    var s := "{{" + name + "}}";
    ParseName(name, "");
    assert s + "" == s;
    InterpolateIsParsePrint(s, vars);
    assert Print([Name(name)], vars) == Value(name, vars) + "";
  }

  /** A value with braces is substituted into by the second pass, not by the single one. */
  lemma BracesInValueNest()
    ensures Interpolate(Interpolate("{{a}}", map["a" := "{{b}}"]), map["b" := "x"]) == "x"
    ensures Interpolate("{{a}}", map["b" := "x"] + map["a" := "{{b}}"]) == "{{b}}"
  {
    assert "{{" + "a" + "}}" == "{{a}}" && "{{" + "b" + "}}" == "{{b}}";
    OneName("a", map["a" := "{{b}}"]);
    OneName("b", map["b" := "x"]);
    OneName("a", map["b" := "x"] + map["a" := "{{b}}"]);
  }
}
