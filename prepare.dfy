/** Preparing the prompts (`1. Preparar Prompts`): for every row of the
    sheet, the selected columns fill the template, the person's name gives
    a label and a file name, and a prompt item and an archive entry are
    appended. A row maps every column of the sheet to its cell. */
module Prepare {
  import opened Wrappers
  import opened Text
  import opened Template

  /** The column the person's name is read from. */
  const NameColumn: string := "nome_completo"

  /** The message shown when no column is selected. */
  const NoColumnMessage: string := "Selecione ao menos uma coluna."

  /** One prepared prompt: the row's index, the name as shown, the cleaned
      name used for the file and the filled template. */
  datatype PromptItem = PromptItem(id: nat, name: string, fileName: string, content: string)

  /** One file of the prompt archive. */
  datatype Entry = Entry(path: string, data: string)

  datatype Prepared =
    | NoColumns(message: string)
    | Prepared(items: seq<PromptItem>, archive: seq<Entry>)

  /** Every selected column is a column of every row. */
  predicate ColumnsOf(rows: seq<Record>, selected: seq<string>) {
    forall i, c :: 0 <= i < |rows| && c in selected ==> c in rows[i]
  }

  /** `{col: row[col] for col in colunas_selecionadas}`. */
  function Filtered(row: Record, selected: seq<string>): (r: Record)
    requires forall c :: c in selected ==> c in row
    ensures forall c :: c in r <==> c in selected
    ensures forall c :: c in r ==> r[c] == row[c]
  {
    map c | c in selected :: row[c]
  }

  /** `str(x)` of a cell, with Python's None printed as `None`. */
  function CellText(cell: Option<string>): string {
    if cell.Some? then cell.value else "None"
  }

  /** `str(row.get('nome_completo', f'Registro {i+1}'))`: the name cell when
      the sheet has that column, a numbered label otherwise. */
  function DisplayName(row: Record, i: nat): (name: string)
    ensures NameColumn in row ==> name == CellText(row[NameColumn])
    ensures NameColumn !in row ==>
              |name| > 9 && name[..9] == "Registro " && Canonical(name[9..]) && DecimalValue(name[9..]) == i + 1
  {
    if NameColumn in row then CellText(row[NameColumn]) else "Registro " + NatToString(i + 1)
  }

  /** A character `[^a-zA-Z0-9\s]` does not delete. */
  predicate Kept(c: char) {
    IsAsciiAlnum(c) || IsSpace(c)
  }

  /** `re.sub(r'[^a-zA-Z0-9\s]', '', s)`. */
  function KeepAllowed(s: string): (r: string)
    ensures |r| <= |s|
    ensures forall k :: 0 <= k < |r| ==> Kept(r[k])
    ensures (forall k :: 0 <= k < |s| ==> Kept(s[k])) ==> r == s
  {
    if s == [] then []
    else (if Kept(s[0]) then [s[0]] else []) + KeepAllowed(s[1..])
  }

  /** `s.replace(' ', '_')`. */
  function Underscores(s: string): (r: string)
    ensures |r| == |s|
    ensures forall k :: 0 <= k < |s| ==> r[k] == (if s[k] == ' ' then '_' else s[k])
  {
    if s == [] then [] else [if s[0] == ' ' then '_' else s[0]] + Underscores(s[1..])
  }

  /** `nome_limpo`: the name with everything but ASCII letters, digits and
      white space deleted, then each space turned into `_`. */
  function CleanName(name: string): string {
    Underscores(KeepAllowed(name))
  }

  /** A character a cleaned name can hold: an ASCII letter or digit, `_`,
      or white space other than the space itself (a tab, a line break). */
  predicate FileNameChar(c: char) {
    IsAsciiAlnum(c) || c == '_' || (IsSpace(c) && c != ' ')
  }

  /** A cleaned name holds no space, only the characters above, and is no
      longer than the name. */
  lemma CleanNameChars(name: string)
    ensures var r := CleanName(name);
            |r| <= |name| && ' ' !in r && forall k :: 0 <= k < |r| ==> FileNameChar(r[k])
  {
    var kept := KeepAllowed(name);
    var r := CleanName(name);
    forall k | 0 <= k < |r| ensures FileNameChar(r[k]) && r[k] != ' ' {
      assert Kept(kept[k]);
    }
  }

  /** Deleting then underscoring keeps the letters and digits in order:
      a name made only of them is its own file name. */
  lemma {:induction false} AlnumNameUnchanged(name: string)
    requires forall k :: 0 <= k < |name| ==> IsAsciiAlnum(name[k])
    ensures CleanName(name) == name
  {
    if name != [] {
      AlnumNameUnchanged(name[1..]);
      assert KeepAllowed(name) == [name[0]] + KeepAllowed(name[1..]);
    }
  }

  /** Cleaning distributes over concatenation. */
  lemma {:induction false} CleanNameAppend(a: string, b: string)
    ensures CleanName(a + b) == CleanName(a) + CleanName(b)
  {
    KeepAllowedAppend(a, b);
    UnderscoresAppend(KeepAllowed(a), KeepAllowed(b));
  }

  lemma {:induction false} KeepAllowedAppend(a: string, b: string)
    ensures KeepAllowed(a + b) == KeepAllowed(a) + KeepAllowed(b)
  {
    if a != [] {
      assert (a + b)[0] == a[0];
      assert (a + b)[1..] == a[1..] + b;
      KeepAllowedAppend(a[1..], b);
    } else {
      assert a + b == b;
    }
  }

  lemma UnderscoresAppend(a: string, b: string)
    ensures Underscores(a + b) == Underscores(a) + Underscores(b)
  {
  }

  /** What each character becomes: deleted when it is not an ASCII letter,
      digit or white space, `_` when it is the space, itself otherwise (a
      tab, a line break, a no-break space are kept). With `CleanNameAppend`
      this fixes the cleaned name of every name. */
  lemma CleanNameOneChar(c: char)
    ensures CleanName([c]) == (if !Kept(c) then [] else if c == ' ' then "_" else [c])
  {
    assert [c][1..] == [];
  }

  /** Characters outside the kept set vanish, so names that differ only in
      them give the same file name, and their archive entries share one
      path. */
  lemma DroppedCharCollides(before: string, c: char, after: string)
    requires !Kept(c)
    ensures CleanName(before + [c] + after) == CleanName(before + after)
  {
    CleanNameAppend(before + [c], after);
    CleanNameAppend(before, [c]);
    CleanNameOneChar(c);
    assert CleanName(before + [c]) == CleanName(before);
    CleanNameAppend(before, after);
  }

  /** `José Silva` and `Jos Silva` share the file name. */
  lemma AccentCollision()
    ensures CleanName("José Silva") == CleanName("Jos Silva")
  {
    DroppedCharCollides("Jos", 'é', " Silva");
    assert "Jos" + ['é'] + " Silva" == "José Silva";
    assert "Jos" + " Silva" == "Jos Silva";
  }

  /** Default labels never collide: two rows without a name column at
      different positions get different names and different file names. */
  lemma DefaultNamesDistinct(row1: Record, row2: Record, i: nat, j: nat)
    requires NameColumn !in row1 && NameColumn !in row2 && i != j
    ensures DisplayName(row1, i) != DisplayName(row2, j)
    ensures CleanName(DisplayName(row1, i)) != CleanName(DisplayName(row2, j))
  {
    var d1 := NatToString(i + 1);
    var d2 := NatToString(j + 1);
    assert d1 != d2;
    DefaultNameClean(d1);
    DefaultNameClean(d2);
    PrefixKeepsDifference("Registro ", d1, d2);
    PrefixKeepsDifference("Registro_", d1, d2);
  }

  lemma PrefixKeepsDifference(p: string, a: string, b: string)
    requires a != b
    ensures p + a != p + b
  {
    assert (p + a)[|p|..] == a;
    assert (p + b)[|p|..] == b;
  }

  /** The default label of a row cleans to `Registro_` and its digits. */
  lemma DefaultNameClean(digits: string)
    requires Canonical(digits)
    ensures CleanName("Registro " + digits) == "Registro_" + digits
  {
    CleanNameAppend("Registro ", digits);
    RegistroClean();
    AlnumNameUnchanged(digits);
  }

  lemma RegistroClean()
    ensures CleanName("Registro ") == "Registro_"
  {
    var word := "Registro";
    RegistroAlnum();
    AlnumNameUnchanged(word);
    CleanNameOneChar(' ');
    CleanNameAppend(word, [' ']);
    assert word + [' '] == "Registro ";
    assert word + "_" == "Registro_";
  }

  lemma RegistroAlnum()
    ensures forall k :: 0 <= k < |"Registro"| ==> IsAsciiAlnum("Registro"[k])
  {
  }

  /** The path of a prompt file in the archive. */
  function PromptPath(fileName: string): string {
    fileName + "_prompt.txt"
  }

  /** What one row becomes: its id, name, file name and filled template. */
  function PromptFor(template: string, row: Record, selected: seq<string>, i: nat): PromptItem
    requires forall c :: c in selected ==> c in row
  {
    var name := DisplayName(row, i);
    PromptItem(i, name, CleanName(name), Substitute(template, Filtered(row, selected)))
  }

  /** The prompt items of the rows, in order. */
  function Prompts(template: string, rows: seq<Record>, selected: seq<string>): seq<PromptItem>
    requires ColumnsOf(rows, selected)
  {
    if rows == [] then []
    else
      var n := |rows| - 1;
      Prompts(template, rows[..n], selected) + [PromptFor(template, rows[n], selected, n)]
  }

  /** The archive entry of an item. */
  function EntryOf(item: PromptItem): Entry {
    Entry(PromptPath(item.fileName), item.content)
  }

  /** The archive: one entry per item, in order. */
  function Archive(items: seq<PromptItem>): (r: seq<Entry>)
    ensures |r| == |items| && forall k :: 0 <= k < |items| ==> r[k] == EntryOf(items[k])
  {
    if items == [] then [] else [EntryOf(items[0])] + Archive(items[1..])
  }

  /** What pressing the button produces: the message when no column is
      selected, otherwise the items and the archive. */
  function Prepare(template: string, rows: seq<Record>, selected: seq<string>): Prepared
    requires ColumnsOf(rows, selected)
  {
    if selected == [] then NoColumns(NoColumnMessage)
    else
      var items := Prompts(template, rows, selected);
      Prepared(items, Archive(items))
  }

  /** Item `item` is what row `row`, at index `i`, should become. */
  predicate ItemOfRow(item: PromptItem, template: string, row: Record, selected: seq<string>, i: nat)
    requires forall c :: c in selected ==> c in row
  {
    item.id == i && item.name == DisplayName(row, i)
    && item.fileName == CleanName(item.name)
    && item.content == Substitute(template, Filtered(row, selected))
  }

  /** One item per row, in row order: item `i` is row `i` with id `i`, its
      file name is its name cleaned, and its content is the template filled
      from the selected columns of that row. */
  lemma {:induction false} PromptsPerRow(template: string, rows: seq<Record>, selected: seq<string>)
    requires ColumnsOf(rows, selected)
    ensures |Prompts(template, rows, selected)| == |rows|
    ensures forall i :: 0 <= i < |rows| ==>
              ItemOfRow(Prompts(template, rows, selected)[i], template, rows[i], selected, i)
  {
    if rows != [] {
      var n := |rows| - 1;
      ColumnsOfPrefix(rows, selected, n);
      PromptsPerRow(template, rows[..n], selected);
      var items := Prompts(template, rows, selected);
      var front := Prompts(template, rows[..n], selected);
      var last := PromptFor(template, rows[n], selected, n);
      assert items == front + [last];
      forall i | 0 <= i < |rows| ensures ItemOfRow(items[i], template, rows[i], selected, i) {
        if i < n {
          assert items[i] == front[i] && rows[..n][i] == rows[i];
        } else {
          assert items[i] == last;
        }
      }
    }
  }

  lemma ColumnsOfPrefix(rows: seq<Record>, selected: seq<string>, n: nat)
    requires ColumnsOf(rows, selected) && n <= |rows|
    ensures ColumnsOf(rows[..n], selected)
  {
    forall i, c | 0 <= i < n && c in selected ensures c in rows[..n][i] {
      assert rows[..n][i] == rows[i];
    }
  }

  /** Only the selected columns reach the prompt: two rows that agree on
      them give the same content. */
  lemma ContentSeesSelectedOnly(template: string, row1: Record, row2: Record, selected: seq<string>)
    requires forall c :: c in selected ==> c in row1 && c in row2 && row1[c] == row2[c]
    ensures Substitute(template, Filtered(row1, selected)) == Substitute(template, Filtered(row2, selected))
  {
    assert Filtered(row1, selected) == Filtered(row2, selected);
  }

  /** The order in which the columns were selected does not matter. */
  lemma SelectionOrderIrrelevant(template: string, row: Record, s1: seq<string>, s2: seq<string>)
    requires forall c :: c in s1 ==> c in row
    requires forall c :: c in s1 <==> c in s2
    ensures Substitute(template, Filtered(row, s1)) == Substitute(template, Filtered(row, s2))
  {
    assert Filtered(row, s1) == Filtered(row, s2);
  }

  /** One more row adds its item at the end. */
  lemma PromptsStep(template: string, rows: seq<Record>, selected: seq<string>, i: nat)
    requires ColumnsOf(rows, selected) && i < |rows|
    ensures ColumnsOf(rows[..i], selected) && ColumnsOf(rows[..i + 1], selected)
    ensures Prompts(template, rows[..i + 1], selected)
            == Prompts(template, rows[..i], selected) + [PromptFor(template, rows[i], selected, i)]
  {
    ColumnsOfPrefix(rows, selected, i);
    ColumnsOfPrefix(rows, selected, i + 1);
    assert rows[..i + 1][..i] == rows[..i];
  }

  /** One more item adds its entry at the end. */
  lemma ArchiveSnoc(items: seq<PromptItem>, item: PromptItem)
    ensures Archive(items + [item]) == Archive(items) + [EntryOf(item)]
  {
  }

  /** The button's loop: an error when nothing is selected, otherwise one
      item and one archive entry appended per row. */
  method PreparePrompts(template: string, rows: seq<Record>, selected: seq<string>)
    returns (result: Prepared)
    requires ColumnsOf(rows, selected)
    ensures result == Prepare(template, rows, selected)
  {
    if selected == [] {
      return NoColumns(NoColumnMessage);
    }
    var items: seq<PromptItem> := [];
    var archive: seq<Entry> := [];
    var i := 0;
    while i < |rows|
      invariant 0 <= i <= |rows|
      invariant ColumnsOf(rows[..i], selected)
      invariant items == Prompts(template, rows[..i], selected)
      invariant archive == Archive(items)
    {
      var row := rows[i];
      var content := Substitute(template, Filtered(row, selected));
      var name := DisplayName(row, i);
      var fileName := CleanName(name);
      var item := PromptItem(i, name, fileName, content);
      PromptsStep(template, rows, selected, i);
      ArchiveSnoc(items, item);
      archive := archive + [Entry(PromptPath(fileName), content)];
      items := items + [item];
      i := i + 1;
    }
    assert rows[..i] == rows;
    return Prepared(items, archive);
  }

}
