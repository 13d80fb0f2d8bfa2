/** Template substitution (`ler_e_substituir_template`): one left-to-right,
    non-overlapping pass of the regular expression `\{\{([^{}]+)\}\}` over
    the template, each match replaced by the record's value for the trimmed
    name. A record maps a column name to a cell; `None` is Python's None and
    `Some(s)` holds `str(value)`. */
module Template {
  import opened Wrappers
  import opened Text

  type Record = map<string, Option<string>>

  predicate IsBrace(c: char) {
    c == '{' || c == '}'
  }

  predicate BraceFree(s: string) {
    forall k :: 0 <= k < |s| ==> !IsBrace(s[k])
  }

  /** End of the longest brace-free run of `t` starting at `k`: what the
      greedy `[^{}]+` consumes. */
  function RunEnd(t: string, k: nat): (j: nat)
    requires k <= |t|
    ensures k <= j <= |t|
    ensures BraceFree(t[k..j])
    ensures j < |t| ==> IsBrace(t[j])
    decreases |t| - k
  {
    if k == |t| || IsBrace(t[k]) then k else RunEnd(t, k + 1)
  }

  /** Does a placeholder start at the front of `t`? If so, the index where
      its name ends and the closing `}}` begins. Backtracking the greedy run
      cannot help: a shorter run is followed by a character that is not a
      brace, so only the longest run can be followed by `}}`. */
  function MatchAt(t: string): (r: Option<nat>)
    ensures r.Some? ==> 2 < r.value && r.value + 2 <= |t|
    ensures r.Some? ==> t[..2] == "{{" && t[r.value..r.value + 2] == "}}"
    ensures r.Some? ==> BraceFree(t[2..r.value])
  {
    if |t| >= 2 && t[0] == '{' && t[1] == '{' then
      var j := RunEnd(t, 2);
      if j > 2 && j + 2 <= |t| && t[j] == '}' && t[j + 1] == '}' then Some(j) else None
    else None
  }

  /** The replacement text for a placeholder name: the trimmed value for the
      trimmed name, or nothing when the name is missing or its value is None. */
  function Lookup(record: Record, name: string): string {
    var key := Strip(name);
    if key in record && record[key].Some? then Strip(record[key].value) else ""
  }

  /** `re.sub(r'\{\{([^{}]+)\}\}', substituir, template)`. The pattern has no
      look-behind, so a match at position i of the template is a match at the
      front of the suffix from i; after a match the scan resumes right after
      it, otherwise one character later. */
  function Substitute(t: string, record: Record): string
    decreases |t|
  {
    if t == [] then []
    else match MatchAt(t)
      case Some(j) => Lookup(record, t[2..j]) + Substitute(t[j + 2..], record)
      case None => [t[0]] + Substitute(t[1..], record)
  }

  /** An independent description of a template: literal text and
      placeholders, in order. */
  datatype Piece = Literal(text: string) | Placeholder(name: string)

  /** The template text a list of pieces stands for. */
  function Unparse(pieces: seq<Piece>): string {
    if pieces == [] then []
    else
      (match pieces[0]
         case Literal(text) => text
         case Placeholder(name) => "{{" + name + "}}")
      + Unparse(pieces[1..])
  }

  /** What substitution should produce for a list of pieces: literals
      copied, each placeholder replaced by its value, never rescanned. */
  function Fill(pieces: seq<Piece>, record: Record): string {
    if pieces == [] then []
    else
      (match pieces[0]
         case Literal(text) => text
         case Placeholder(name) => Lookup(record, name))
      + Fill(pieces[1..], record)
  }

  /** Text in which no placeholder can start, whatever follows it: no `{{`
      inside and no `{` at the end. Single braces, as in a JSON snippet,
      are allowed. */
  predicate LiteralText(text: string) {
    && (forall k :: 0 < k < |text| ==> !(text[k - 1] == '{' && text[k] == '{'))
    && (text != [] ==> text[|text| - 1] != '{')
  }

  /** Pieces whose text reads back unambiguously: literals are
      `LiteralText` and every placeholder name is a non-empty run without
      braces. */
  predicate WellFormed(pieces: seq<Piece>) {
    forall k :: 0 <= k < |pieces| ==>
      match pieces[k]
        case Literal(text) => LiteralText(text)
        case Placeholder(name) => name != [] && BraceFree(name)
  }

  /** Literal text is copied through unchanged and the scan goes on after
      it. */
  lemma {:induction false} LiteralCopied(text: string, rest: string, record: Record)
    requires LiteralText(text)
    ensures Substitute(text + rest, record) == text + Substitute(rest, record)
  {
    if text != [] {
      LiteralStep(text, rest, record);
      LiteralTail(text);
      LiteralCopied(text[1..], rest, record);
      ConsConcat(text, Substitute(rest, record));
    } else {
      assert text + rest == rest;
    }
  }

  lemma ConsConcat<T>(a: seq<T>, x: seq<T>)
    requires a != []
    ensures [a[0]] + (a[1..] + x) == a + x
  {
    assert a == [a[0]] + a[1..];
  }

  lemma LiteralTail(text: string)
    requires text != [] && LiteralText(text)
    ensures LiteralText(text[1..])
  {
    forall k | 0 < k < |text[1..]| ensures !(text[1..][k - 1] == '{' && text[1..][k] == '{') {
      assert text[1..][k - 1] == text[k] && text[1..][k] == text[k + 1];
    }
  }

  /** The first character of a literal is copied: either it is not `{`, or
      it is a `{` followed by a character of the literal that is not `{`. */
  lemma LiteralStep(text: string, rest: string, record: Record)
    requires text != [] && LiteralText(text)
    ensures Substitute(text + rest, record) == [text[0]] + Substitute(text[1..] + rest, record)
  {
    var t := text + rest;
    assert t[0] == text[0];
    assert t[1..] == text[1..] + rest;
    if text[0] == '{' {
      assert |text| >= 2 && t[1] == text[1] && text[1] != '{';
      assert MatchAt(t).None?;
    } else {
      NotAPlaceholder(t, record);
    }
  }

  /** A template that does not start with `{` loses its first character to
      the output unchanged. */
  lemma NotAPlaceholder(t: string, record: Record)
    requires t != [] && t[0] != '{'
    ensures Substitute(t, record) == [t[0]] + Substitute(t[1..], record)
  {
    assert MatchAt(t).None?;
  }

  /** A well-formed placeholder is matched in full at the front. */
  lemma PlaceholderMatched(name: string, rest: string)
    requires name != [] && BraceFree(name)
    ensures var t := "{{" + name + "}}" + rest;
            MatchAt(t) == Some(2 + |name|) && t[2..2 + |name|] == name
            && t[2 + |name| + 2..] == rest
  {
    var t := "{{" + name + "}}" + rest;
    RunEndOfFreeRun(t, 2, 2 + |name|);
  }

  lemma {:induction false} RunEndOfFreeRun(t: string, k: nat, j: nat)
    requires k <= j < |t| && BraceFree(t[k..j]) && IsBrace(t[j])
    ensures RunEnd(t, k) == j
    decreases j - k
  {
    if k < j {
      assert t[k] == t[k..j][0];
      assert t[k + 1..j] == t[k..j][1..];
      RunEndOfFreeRun(t, k + 1, j);
    }
  }

  /** Substitution does to a well-formed template exactly what `Fill` says:
      text outside placeholders is copied, each placeholder becomes its
      value, and a value is inserted as it is, never scanned again. */
  lemma {:induction false} SubstituteFills(pieces: seq<Piece>, record: Record)
    requires WellFormed(pieces)
    ensures Substitute(Unparse(pieces), record) == Fill(pieces, record)
  {
    if pieces != [] {
      assert WellFormed(pieces[1..]) by {
        forall k | 0 <= k < |pieces[1..]| ensures
          match pieces[1..][k]
            case Literal(text) => LiteralText(text)
            case Placeholder(name) => name != [] && BraceFree(name)
        {
          assert pieces[1..][k] == pieces[k + 1];
        }
      }
      var rest := Unparse(pieces[1..]);
      SubstituteFills(pieces[1..], record);
      match pieces[0]
      case Literal(text) =>
        assert Unparse(pieces) == text + rest;
        LiteralCopied(text, rest, record);
      case Placeholder(name) =>
        assert Unparse(pieces) == "{{" + name + "}}" + rest;
        PlaceholderMatched(name, rest);
    }
  }

  /** A template in which no placeholder starts anywhere comes back as it
      is. */
  lemma {:induction false} NoPlaceholderUnchanged(t: string, record: Record)
    requires forall i :: 0 <= i < |t| ==> MatchAt(t[i..]).None?
    ensures Substitute(t, record) == t
  {
    if t != [] {
      assert t[0..] == t;
      forall i | 0 <= i < |t[1..]| ensures MatchAt(t[1..][i..]).None? {
        assert t[1..][i..] == t[i + 1..];
      }
      NoPlaceholderUnchanged(t[1..], record);
    }
  }

  /** The name is trimmed before lookup: surrounding white space inside the
      braces does not change what the placeholder becomes. */
  lemma NameIsTrimmed(name: string, record: Record)
    ensures Lookup(record, name) == Lookup(record, Strip(name))
  {
    StripIdempotent(name);
  }

  /** One placeholder between two literals becomes its value: the trimmed
      value for the trimmed name when the record has one, nothing when the
      name is missing or its value is None (no error is raised). */
  lemma {:induction false} OnePlaceholder(name: string, before: string, after: string, record: Record)
    requires name != [] && BraceFree(name)
    requires LiteralText(before) && LiteralText(after)
    ensures var key := Strip(name);
            Substitute(before + "{{" + name + "}}" + after, record)
            == before + (if key in record && record[key].Some? then Strip(record[key].value) else "") + after
  {
    var tail := "{{" + name + "}}" + after;
    assert before + "{{" + name + "}}" + after == before + tail;
    LiteralCopied(before, tail, record);
    PlaceholderThenLiteral(name, after, record);
    assert Substitute(before + tail, record) == before + Lookup(record, name) + after;
  }

  /** A placeholder followed by literal text: the value, then the text. */
  lemma PlaceholderThenLiteral(name: string, after: string, record: Record)
    requires name != [] && BraceFree(name) && LiteralText(after)
    ensures Substitute("{{" + name + "}}" + after, record) == Lookup(record, name) + after
  {
    PlaceholderMatched(name, after);
    LiteralCopied(after, [], record);
    assert after + [] == after;
  }

  /** `Hello {{name}}!` with name Ana gives `Hello Ana!`. */
  lemma HelloExample()
    ensures Substitute("Hello {{name}}!", map["name" := Some("Ana")]) == "Hello Ana!"
  {
    var record := map["name" := Some("Ana")];
    HelloPieces();
    HelloLookup();
    OnePlaceholder("name", "Hello ", "!", record);
  }

  lemma HelloPieces()
    ensures "Hello " + "{{" + "name" + "}}" + "!" == "Hello {{name}}!"
    ensures "Hello " + "Ana" + "!" == "Hello Ana!"
    ensures BraceFree("name")
  {
  }

  lemma HelloLookup()
    ensures Strip("name") == "name" && Strip("Ana") == "Ana"
  {
    StripUnchanged("name");
    StripUnchanged("Ana");
  }

  /** Single braces around a placeholder are literal text: `{x: {{a}}}`
      with `a = 1` gives `{x: 1}`. */
  lemma BracesAroundPlaceholder()
    ensures Substitute("{x: {{a}}}", map["a" := Some("1")]) == "{x: 1}"
  {
    var record := map["a" := Some("1")];
    BracesPieces();
    StripUnchanged("a");
    StripUnchanged("1");
    OnePlaceholder("a", "{x: ", "}", record);
  }

  lemma BracesPieces()
    ensures "{x: " + "{{" + "a" + "}}" + "}" == "{x: {{a}}}"
    ensures "{x: " + "1" + "}" == "{x: 1}"
    ensures BraceFree("a") && LiteralText("{x: ") && LiteralText("}")
  {
  }

  /** A value that itself reads like a placeholder is copied into the
      result and not expanded: `{{a}}` with `a = "{{b}}"` gives `{{b}}` even
      though `b` has a value. So the output may still contain `{{`. */
  lemma ValueNotRescanned()
    ensures Substitute("{{a}}", map["a" := Some("{{b}}"), "b" := Some("B")]) == "{{b}}"
  {
    var record := map["a" := Some("{{b}}"), "b" := Some("B")];
    var pieces := [Placeholder("a")];
    assert WellFormed(pieces);
    assert Unparse(pieces) == "{{a}}";
    StripUnchanged("a");
    StripUnchanged("{{b}}");
    assert Fill(pieces, record) == "{{b}}";
    SubstituteFills(pieces, record);
  }

}
