/**
 * The editor launcher: an editor name given by the user is resolved to the
 * command to run through a fixed alias table, case-insensitively, and is used
 * unchanged when no alias matches. Starting the process is not modelled.
 */
module Launcher {
  import opened Wrappers
  import opened Text
  import opened Collections

  /** One row of the alias table: the name a user may type and the commands it stands for. */
  datatype Alias = Alias(name: string, commands: seq<string>)

  /** `EDITOR_ALIASES`, in table order. */
  function EditorAliases(): seq<Alias> {
    [ Alias("code", ["code"]),
      Alias("vscode", ["code"]),
      Alias("cursor", ["cursor"]),
      Alias("vim", ["vim"]),
      Alias("nvim", ["nvim"]),
      Alias("neovim", ["nvim"]),
      Alias("emacs", ["emacs"]),
      Alias("sublime", ["subl"]),
      Alias("subl", ["subl"]),
      Alias("atom", ["atom"]),
      Alias("idea", ["idea"]),
      Alias("intellij", ["idea"]),
      Alias("webstorm", ["webstorm"]),
      Alias("pycharm", ["pycharm"]),
      Alias("goland", ["goland"]),
      Alias("rustrover", ["rustrover"]),
      Alias("zed", ["zed"]) ]
  }

  /** Every row lists at least one command, so the first command of a row always exists. */
  predicate CommandsPresent(table: seq<Alias>) {
    forall i :: 0 <= i < |table| ==> table[i].commands != []
  }

  /** Row `i` is the first row of `table` whose alias is `key`. */
  predicate FirstMatch(table: seq<Alias>, key: string, i: int) {
    0 <= i < |table| && table[i].name == key && forall j :: 0 <= j < i ==> table[j].name != key
  }

  /** The search loop of `resolve_editor`: the first command of the first row whose alias is `key`. */
  function Lookup(table: seq<Alias>, key: string): (r: Option<string>)
    requires CommandsPresent(table)
    ensures r.None? <==> forall i :: 0 <= i < |table| ==> table[i].name != key
    ensures forall i :: FirstMatch(table, key, i) ==> r == Some(table[i].commands[0])
  {
    if table == [] then None
    else if table[0].name == key then Some(table[0].commands[0])
    else
      var r := Lookup(table[1..], key);
      assert forall i :: FirstMatch(table, key, i) ==> i > 0 && FirstMatch(table[1..], key, i - 1);
      r
  }

  /** A launcher holds the editor name it was created with. */
  datatype Launcher = Launcher(editor: string)

  /** `Launcher::new`. */
  function New(editor: string): (l: Launcher)
    ensures l.editor == editor
  {
    Launcher(editor)
  }

  /** The aliases of a table, row by row. */
  function AliasNames(table: seq<Alias>): (names: seq<string>)
    ensures |names| == |table| && forall i :: 0 <= i < |table| ==> names[i] == table[i].name
  {
    seq(|table|, i requires 0 <= i < |table| => table[i].name)
  }

  lemma EditorAliasesWellFormed()
    ensures |EditorAliases()| == 17
    ensures CommandsPresent(EditorAliases())
    ensures forall i :: 0 <= i < |EditorAliases()| ==> EditorAliases()[i].name != []
  {
  }

  /** No alias is listed twice. */
  lemma AliasesDistinct()
    ensures NoDuplicates(AliasNames(EditorAliases()))
  {
    DistinctBySignature(AliasNames(EditorAliases()));
  }

  /**
   * `resolve_editor`: the editor name is lower-cased and looked up; a match gives
   * the first command of the first matching row, no match gives the name as typed.
   */
  function ResolveEditor(l: Launcher): (r: string)
    ensures (forall i :: 0 <= i < |EditorAliases()| ==> EditorAliases()[i].name != Lower(l.editor)) ==> r == l.editor
    ensures forall i :: FirstMatch(EditorAliases(), Lower(l.editor), i) ==> r == EditorAliases()[i].commands[0]
  {
    EditorAliasesWellFormed();
    match Lookup(EditorAliases(), Lower(l.editor))
    case Some(command) => command
    case None => l.editor
  }

  /** The aliases are distinct, so a row whose alias is `key` is the first such row. */
  lemma MatchIsFirst(key: string, i: int)
    requires 0 <= i < |EditorAliases()| && EditorAliases()[i].name == key
    ensures FirstMatch(EditorAliases(), key, i)
  {
    AliasesDistinct();
    DistinctMatchIsFirst(EditorAliases(), key, i);
  }

  /** In a table without repeated aliases, any row with the alias is the first one. */
  lemma DistinctMatchIsFirst(table: seq<Alias>, key: string, i: int)
    requires NoDuplicates(AliasNames(table))
    requires 0 <= i < |table| && table[i].name == key
    ensures FirstMatch(table, key, i)
  {
    var names := AliasNames(table);
    assert forall j :: 0 <= j < i ==> names[j] != names[i];
  }

  /** Every command the table resolves to is typed in lower case and resolves to itself. */
  lemma CommandsResolveToThemselves()
    ensures forall i :: 0 <= i < |EditorAliases()| ==>
              ResolveEditor(New(EditorAliases()[i].commands[0])) == EditorAliases()[i].commands[0]
  {
    var table := EditorAliases();
    forall i | 0 <= i < |table|
      ensures ResolveEditor(New(table[i].commands[0])) == table[i].commands[0]
    {
      var k := if i == 1 then 0 else if i == 5 then 4 else if i == 7 then 8 else if i == 11 then 10 else i;
      CommandResolvesToItself(table[i].commands[0], k);
    }
  }

  /** A lower-case command that is also the alias of a row naming that same command resolves to itself. */
  lemma CommandResolvesToItself(command: string, k: int)
    requires 0 <= k < |EditorAliases()|
    requires EditorAliases()[k].name == command && EditorAliases()[k].commands[0] == command
    requires forall j :: 0 <= j < |command| ==> !('A' <= command[j] <= 'Z')
    ensures ResolveEditor(New(command)) == command
  {
    LowerOfLowercase(command);
    ResolveByAlias(command, k);
  }

  /** Resolving a resolved name changes nothing. */
  lemma ResolveIdempotent(l: Launcher)
    ensures ResolveEditor(New(ResolveEditor(l))) == ResolveEditor(l)
  {
    var table, key := EditorAliases(), Lower(l.editor);
    if i :| 0 <= i < |table| && table[i].name == key {
      MatchIsFirst(key, i);
      CommandsResolveToThemselves();
    }
  }

  /** Names that differ only in ASCII case resolve alike when they name an alias. */
  lemma ResolveIgnoresCase(a: string, b: string)
    requires Lower(a) == Lower(b)
    requires exists i :: 0 <= i < |EditorAliases()| && EditorAliases()[i].name == Lower(a)
    ensures ResolveEditor(New(a)) == ResolveEditor(New(b))
  {
    var i :| 0 <= i < |EditorAliases()| && EditorAliases()[i].name == Lower(a);
    MatchIsFirst(Lower(a), i);
  }

  /** A name whose lower-cased form is the alias of row `i` resolves to that row's first command. */
  lemma ResolveByAlias(name: string, i: int)
    requires 0 <= i < |EditorAliases()| && Lower(name) == EditorAliases()[i].name
    ensures ResolveEditor(New(name)) == EditorAliases()[i].commands[0]
  {
    MatchIsFirst(Lower(name), i);
  }

  /** No alias is longer than nine characters. */
  lemma AliasesShort()
    ensures forall i :: 0 <= i < |EditorAliases()| ==> |EditorAliases()[i].name| <= 9
  {
  }

  /** The alias test: "vscode" opens `code`. */
  lemma ResolveVscode(name: string)
    requires name == "vscode"
    ensures ResolveEditor(New(name)) == "code"
  {
    VscodeLowered(name);
    ResolvesToCode(name);
  }

  lemma ResolvesToCode(name: string)
    requires Lower(name) == "vscode"
    ensures ResolveEditor(New(name)) == "code"
  {
    ResolveByAlias(name, 1);
  }

  /** The alias test: "neovim" opens `nvim`, and so does "NeoVim". */
  lemma ResolveNeovim(name: string)
    requires name == "neovim" || name == "NeoVim"
    ensures ResolveEditor(New(name)) == "nvim"
  {
    NeovimLowered(name);
    ResolvesToNvim(name);
  }

  lemma ResolvesToNvim(name: string)
    requires Lower(name) == "neovim"
    ensures ResolveEditor(New(name)) == "nvim"
  {
    NeovimRow();
    ResolveByAlias(name, 5);
  }

  lemma NeovimRow()
    ensures |EditorAliases()| > 5 && EditorAliases()[5] == Alias("neovim", ["nvim"])
  {
  }

  lemma NeovimLowered(name: string)
    requires name == "neovim" || name == "NeoVim"
    ensures Lower(name) == "neovim"
  {
    if name == "neovim" {
      LowerOfLowercase(name);
    } else {
      assert Lower(name)[0] == 'n' && Lower(name)[3] == 'v';
    }
  }

  lemma VscodeLowered(name: string)
    requires name == "vscode"
    ensures Lower(name) == "vscode"
  {
    LowerOfLowercase(name);
  }

  /** The no-alias test: a name outside the table is returned as typed, capitals included. */
  lemma ResolveNoAliasExamples(custom: string, mixed: string)
    requires custom == "my-custom-editor" && mixed == "My-Custom-Editor"
    ensures ResolveEditor(New(custom)) == custom
    ensures ResolveEditor(New(mixed)) == mixed
  {
    AliasesShort();
    assert |Lower(custom)| == 16 && |Lower(mixed)| == 16;
  }
}
