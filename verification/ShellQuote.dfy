/**
 Shell quoting of argument lists, proved against a reader that splits a line into
 words by the quoting and token-recognition rules of sections 2.2 and 2.3 of the
 POSIX.1-2017 Shell Command Language.
 */
module ShellQuote {
  import opened Wrappers

  // ----- The quoter -----

  predicate IsAlphanumeric(c: char) {
    'a' <= c <= 'z' || 'A' <= c <= 'Z' || '0' <= c <= '9'
  }

  /** The characters that mean themselves unquoted. */
  predicate IsSafe(c: char) {
    IsAlphanumeric(c) || c == '_' || c == '-' || c == '.' || c == '/' || c == ',' || c == ':' || c == '=' || c == '+'
    || c == '@' || c == '%'
  }

  /** The text between single quotes: each quote closes, is written escaped, and reopens. */
  function EscapeQuotes(arg: string): string {
    if arg == "" then ""
    else (if arg[0] == '\'' then "'\\''" else [arg[0]]) + EscapeQuotes(arg[1..])
  }

  function QuoteArg(arg: string): string {
    if arg == "" then "''"
    else if arg[0] == '=' then "'" + EscapeQuotes(arg) + "'"
    else if forall i :: 0 <= i < |arg| ==> IsSafe(arg[i]) then arg
    else "'" + EscapeQuotes(arg) + "'"
  }

  /** The quoted arguments, separated by single spaces. */
  function EscapeArgs(args: seq<string>): string {
    if args == [] then ""
    else if |args| == 1 then QuoteArg(args[0])
    else QuoteArg(args[0]) + " " + EscapeArgs(args[1..])
  }

  // ----- The reader -----

  datatype Mode =
    | Plain
    | Escaped          // after an unquoted backslash
    | InSingle
    | InDouble
    | EscapedInDouble  // after a backslash inside double quotes

  /** Words completed so far, and the word being read, if one has begun. */
  datatype Reader = Reader(mode: Mode, word: Option<string>, words: seq<string>)

  function Append(r: Reader, c: char): Reader {
    r.(word := Some(if r.word.Some? then r.word.value + [c] else [c]))
  }

  function Begin(r: Reader, mode: Mode): Reader {
    r.(mode := mode, word := Some(if r.word.Some? then r.word.value else ""))
  }

  /** Unquoted characters that are operators, expansions or patterns, so that a word holding one is not just text. */
  predicate IsActive(c: char) {
    || c == '|' || c == '&' || c == ';' || c == '<' || c == '>'
    || c == '(' || c == ')' || c == '$' || c == '`' || c == '\n'
    || c == '*' || c == '?' || c == '[' || c == '~' || c == '!' || c == '{' || c == '}'
  }

  /** Read one character; `None` when the line asks the shell for more than splitting into literal words. */
  function ReadChar(r: Reader, c: char): Option<Reader> {
    match r.mode
    case Plain =>
      if c == ' ' || c == '\t' then
        Some(if r.word.Some? then Reader(Plain, None, r.words + [r.word.value]) else r)
      else if c == '\'' then Some(Begin(r, InSingle))
      else if c == '"' then Some(Begin(r, InDouble))
      else if c == '\\' then Some(r.(mode := Escaped))
      else if IsActive(c) || (r.word.None? && (c == '#' || c == '=')) then None
      else Some(Append(r, c))
    case Escaped =>
      if c == '\n' then Some(r.(mode := Plain)) else Some(Append(r, c).(mode := Plain))
    case InSingle =>
      if c == '\'' then Some(r.(mode := Plain)) else Some(Append(r, c))
    case InDouble =>
      if c == '"' then Some(r.(mode := Plain))
      else if c == '\\' then Some(r.(mode := EscapedInDouble))
      else if c == '$' || c == '`' then None
      else Some(Append(r, c))
    case EscapedInDouble =>
      if c == '\n' then Some(r.(mode := InDouble))
      else if c == '$' || c == '`' || c == '"' || c == '\\' then Some(Append(r, c).(mode := InDouble))
      else Some(Append(Append(r, '\\'), c).(mode := InDouble))
  }

  function Read(r: Reader, line: string): Option<Reader>
    decreases |line|
  {
    if line == "" then Some(r) else
    match ReadChar(r, line[0])
    case None => None
    case Some(r') => Read(r', line[1..])
  }

  /** The words of a line, or `None` when it is not a plain list of literal words. */
  function SplitLine(line: string): Option<seq<string>> {
    match Read(Reader(Plain, None, []), line)
    case None => None
    case Some(r) =>
      if r.mode != Plain then None
      else Some(if r.word.Some? then r.words + [r.word.value] else r.words)
  }

  // ----- Reading back what was quoted -----

  lemma {:induction false} ReadConcat(r: Reader, x: string, y: string)
    ensures Read(r, x + y) == if Read(r, x).None? then None else Read(Read(r, x).value, y)
    decreases |x|
  {
    hide ReadChar;
    if x == "" {
      assert x + y == y;
    } else {
      assert (x + y)[1..] == x[1..] + y;
      if ReadChar(r, x[0]).Some? {
        ReadConcat(ReadChar(r, x[0]).value, x[1..], y);
      }
    }
  }

  lemma SafeIsLiteral(r: Reader, c: char)
    requires IsSafe(c) && r.mode == Plain && (c == '=' ==> r.word.Some?)
    ensures ReadChar(r, c) == Some(Append(r, c))
  {
  }

  lemma {:induction false} ReadSafe(w: string, words: seq<string>, arg: string)
    requires forall i :: 0 <= i < |arg| ==> IsSafe(arg[i])
    ensures Read(Reader(Plain, Some(w), words), arg) == Some(Reader(Plain, Some(w + arg), words))
    decreases |arg|
  {
    if arg == "" {
      assert w + arg == w;
    } else {
      SafeIsLiteral(Reader(Plain, Some(w), words), arg[0]);
      hide ReadChar, IsSafe;
      ReadSafe(w + [arg[0]], words, arg[1..]);
      assert w + [arg[0]] + arg[1..] == w + arg;
    }
  }

  lemma ReadQuoteInside(w: string, words: seq<string>)
    ensures Read(Reader(InSingle, Some(w), words), "'\\''") == Some(Reader(InSingle, Some(w + "'"), words))
  {
    var r0 := Reader(InSingle, Some(w), words);
    var r1 := Reader(Plain, Some(w), words);
    var r2 := Reader(Escaped, Some(w), words);
    var r3 := Reader(Plain, Some(w + "'"), words);
    var line := "'\\''";
    assert line[1..] == "\\''" && line[1..][1..] == "''";
    assert line[1..][1..][1..] == "'" && line[1..][1..][1..][1..] == "";
    assert ReadChar(r0, '\'') == Some(r1) && ReadChar(r1, '\\') == Some(r2);
    assert ReadChar(r2, '\'') == Some(r3) && ReadChar(r3, '\'') == Some(Reader(InSingle, Some(w + "'"), words));
    assert Read(r3, "'") == Some(Reader(InSingle, Some(w + "'"), words));
    assert Read(r2, "''") == Read(r3, "'");
    assert Read(r1, "\\''") == Read(r2, "''");
  }

  lemma {:induction false} ReadEscaped(w: string, words: seq<string>, arg: string)
    ensures Read(Reader(InSingle, Some(w), words), EscapeQuotes(arg)) == Some(Reader(InSingle, Some(w + arg), words))
    decreases |arg|
  {
    var r := Reader(InSingle, Some(w), words);
    if arg == "" {
      assert w + arg == w;
    } else {
      var c := arg[0];
      var head := if c == '\'' then "'\\''" else [c];
      ReadConcat(r, head, EscapeQuotes(arg[1..]));
      if c == '\'' {
        ReadQuoteInside(w, words);
        assert "'" == [c];
      } else {
        assert head[1..] == "";
        assert Read(r, head) == Some(Reader(InSingle, Some(w + [c]), words));
      }
      ReadEscaped(w + [c], words, arg[1..]);
      assert w + [c] + arg[1..] == w + arg;
    }
  }

  /** Quoted text opens, yields the argument, and closes. */
  lemma ReadQuoted(words: seq<string>, arg: string)
    ensures Read(Reader(Plain, None, words), "'" + EscapeQuotes(arg) + "'") == Some(Reader(Plain, Some(arg), words))
  {
    var r := Reader(Plain, None, words);
    var inside := Reader(InSingle, Some(""), words);
    ReadConcat(r, "'" + EscapeQuotes(arg), "'");
    ReadConcat(r, "'", EscapeQuotes(arg));
    assert "'"[1..] == "";
    assert Read(r, "'") == Some(inside);
    ReadEscaped("", words, arg);
    assert "" + arg == arg;
    assert Read(Reader(InSingle, Some(arg), words), "'") == Some(Reader(Plain, Some(arg), words));
  }

  /** A quoted argument is read back as one word, exactly as it was, empty arguments included. */
  lemma ReadQuoteArg(words: seq<string>, arg: string)
    ensures Read(Reader(Plain, None, words), QuoteArg(arg)) == Some(Reader(Plain, Some(arg), words))
  {
    if arg == "" {
      ReadQuoted(words, arg);
      assert "'" + EscapeQuotes(arg) + "'" == "''";
    } else if arg[0] != '=' && forall i :: 0 <= i < |arg| ==> IsSafe(arg[i]) {
      SafeIsLiteral(Reader(Plain, None, words), arg[0]);
      hide ReadChar, IsSafe;
      ReadSafe([arg[0]], words, arg[1..]);
      assert [arg[0]] + arg[1..] == arg;
    } else {
      ReadQuoted(words, arg);
    }
  }

  lemma ReadSpace(words: seq<string>, arg: string)
    ensures Read(Reader(Plain, Some(arg), words), " ") == Some(Reader(Plain, None, words + [arg]))
  {
    assert " "[1..] == "";
  }

  lemma {:induction false} ReadEscapedArgs(words: seq<string>, args: seq<string>)
    requires args != []
    ensures Read(Reader(Plain, None, words), EscapeArgs(args))
         == Some(Reader(Plain, Some(args[|args| - 1]), words + args[..|args| - 1]))
    decreases |args|
  {
    hide Read, QuoteArg;
    var r := Reader(Plain, None, words);
    ReadQuoteArg(words, args[0]);
    if |args| == 1 {
      assert words + args[..0] == words;
    } else {
      var rest := args[1..];
      ReadConcat(r, QuoteArg(args[0]) + " ", EscapeArgs(rest));
      ReadConcat(r, QuoteArg(args[0]), " ");
      ReadSpace(words, args[0]);
      ReadEscapedArgs(words + [args[0]], rest);
      assert words + [args[0]] + rest[..|rest| - 1] == words + args[..|args| - 1];
    }
  }

  /** Splitting the escaped line gives back exactly the argument list. */
  lemma SplitUndoesEscape(args: seq<string>)
    ensures SplitLine(EscapeArgs(args)) == Some(args)
  {
    if args != [] {
      hide Read, EscapeArgs;
      ReadEscapedArgs([], args);
      var init := args[..|args| - 1];
      assert [] + init == init;
      assert init + [args[|args| - 1]] == args;
    }
  }

  /** Distinct argument lists never render alike. */
  lemma EscapeIsInjective(args: seq<string>, args': seq<string>)
    requires EscapeArgs(args) == EscapeArgs(args')
    ensures args == args'
  {
    SplitUndoesEscape(args);
    SplitUndoesEscape(args');
  }
}
