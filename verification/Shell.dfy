/** Printing an argument list for a POSIX shell (`shell_quote` and
    `printable_qemu_command` in src/vm.rs), and reading it back by the quoting
    rules of section 2.2 of the POSIX Shell Command Language. */
module Shell {
  import opened Sequences
  import opened Wrappers

  predicate IsAlnum(c: char) {
    'a' <= c <= 'z' || 'A' <= c <= 'Z' || '0' <= c <= '9'
  }

  predicate IsSafe(c: char) {
    IsAlnum(c) || c in "-_./:=,"
  }

  ghost predicate AllSafe(s: string) {
    forall i :: 0 <= i < |s| ==> IsSafe(s[i])
  }

  predicate AllSafeScan(s: string)
    ensures AllSafeScan(s) <==> AllSafe(s)
  {
    s == "" || (IsSafe(s[0]) && AllSafeScan(s[1..]))
  }

  /** Each single quote closes the quoting, adds a double-quoted quote and reopens it. */
  function Escape(s: string): string {
    if s == "" then ""
    else (if s[0] == '\'' then "'\"'\"'" else [s[0]]) + Escape(s[1..])
  }

  function Quote(s: string): string {
    if AllSafeScan(s) then s else "'" + Escape(s) + "'"
  }

  /** Letters, digits and these seven characters go unquoted. */
  ghost predicate Unquoted(c: char) {
    || 'a' <= c <= 'z' || 'A' <= c <= 'Z' || '0' <= c <= '9'
    || c == '-' || c == '_' || c == '.' || c == '/' || c == ':' || c == '=' || c == ','
  }

  /** An argument is printed as it is if and only if it consists of them, and in single quotes
      otherwise. */
  lemma QuoteExactly(s: string)
    ensures (forall i :: 0 <= i < |s| ==> Unquoted(s[i])) ==> Quote(s) == s
    ensures !(forall i :: 0 <= i < |s| ==> Unquoted(s[i])) ==>
              |Quote(s)| >= 2 && Quote(s)[0] == '\'' && Quote(s)[|Quote(s)| - 1] == '\''
  {
    forall c: char ensures IsSafe(c) <==> Unquoted(c) {
      SafeExactly(c);
    }
  }

  lemma SafeExactly(c: char)
    ensures IsSafe(c) <==> Unquoted(c)
  {
    var extra := "-_./:=,";
    assert extra[0] == '-' && extra[1] == '_' && extra[2] == '.' && extra[3] == '/';
    assert extra[4] == ':' && extra[5] == '=' && extra[6] == ',';
  }

  /** The quoted arguments with single spaces in between. */
  function Print(args: seq<string>): string {
    if args == [] then "" else Quote(args[0]) + (if |args| == 1 then "" else " " + Print(args[1..]))
  }

  // ---- Reading a command line ---------------------------------------------

  datatype Mode = Plain | Single | Double

  /** Characters that mean something else to the shell when not quoted. */
  predicate IsSpecial(c: char) {
    c in "|&;<>()$`\n*?["
  }

  function Add(word: Option<string>, c: char): Option<string> {
    Some((if word.Some? then word.value else "") + [c])
  }

  function Begun(word: Option<string>): Option<string> {
    if word.Some? then word else Some("")
  }

  /** The fields of a simple command, or nothing when the text is not one made
      of literal words only. `word` is the word being read, `done` those before. */
  function Fields(s: string, mode: Mode, word: Option<string>, done: seq<string>): Option<seq<string>> {
    if s == "" then
      if mode.Plain? then Some(if word.Some? then done + [word.value] else done) else None
    else
      var c, rest := s[0], s[1..];
      match mode
      case Plain =>
        if c == ' ' || c == '\t' then Fields(rest, Plain, None, if word.Some? then done + [word.value] else done)
        else if c == '\'' then Fields(rest, Single, Begun(word), done)
        else if c == '"' then Fields(rest, Double, Begun(word), done)
        else if c == '\\' then
          if rest == "" || rest[0] == '\n' then None else Fields(rest[1..], Plain, Add(word, rest[0]), done)
        else if IsSpecial(c) || (word.None? && (c == '#' || c == '~')) || (done == [] && c == '=') then None
        else Fields(rest, Plain, Add(word, c), done)
      case Single =>
        if c == '\'' then Fields(rest, Plain, word, done) else Fields(rest, Single, Add(word, c), done)
      case Double =>
        if c == '"' then Fields(rest, Plain, word, done)
        else if c == '$' || c == '`' then None
        else if c == '\\' then
          if rest != "" && rest[0] in "$`\"\\" then Fields(rest[1..], Double, Add(word, rest[0]), done)
          else if rest != "" && rest[0] == '\n' then Fields(rest[1..], Double, word, done)
          else Fields(rest, Double, Add(word, c), done)
        else Fields(rest, Double, Add(word, c), done)
  }

  function ReadCommand(s: string): Option<seq<string>> {
    Fields(s, Plain, None, [])
  }

  // ---- Reading back what was printed --------------------------------------

  /** A word may start a command only if it cannot be taken for an assignment. */
  ghost predicate Placed(v: string, done: seq<string>) {
    done == [] ==> '=' !in v
  }

  lemma {:induction false} ScanSafe(v: string, acc: string, rest: string, done: seq<string>)
    requires AllSafe(v) && Placed(v, done)
    ensures Fields(v + rest, Plain, Some(acc), done) == Fields(rest, Plain, Some(acc + v), done)
  {
    if v == "" {
      assert v + rest == rest && acc + v == acc;
    } else {
      assert (v + rest)[1..] == v[1..] + rest;
      ScanSafe(v[1..], acc + [v[0]], rest, done);
      assert acc + [v[0]] + v[1..] == acc + v;
    }
  }

  lemma {:induction false} ScanEscaped(v: string, acc: string, rest: string, done: seq<string>)
    ensures Fields(Escape(v) + "'" + rest, Single, Some(acc), done) == Fields(rest, Plain, Some(acc + v), done)
  {
    if v == "" {
      assert Escape(v) + "'" + rest == "'" + rest;
      assert acc + v == acc;
    } else {
      var tail := Escape(v[1..]) + "'" + rest;
      ScanEscaped(v[1..], acc + [v[0]], rest, done);
      assert acc + [v[0]] + v[1..] == acc + v;
      if v[0] == '\'' {
        assert Escape(v) + "'" + rest == "'\"'\"'" + tail;
        ScanQuoteMark(acc, tail, done);
      } else {
        assert Escape(v) + "'" + rest == [v[0]] + tail;
        assert (Escape(v) + "'" + rest)[1..] == tail;
      }
    }
  }

  /** The five characters that stand for a single quote. */
  lemma ScanQuoteMark(acc: string, tail: string, done: seq<string>)
    ensures Fields("'\"'\"'" + tail, Single, Some(acc), done) == Fields(tail, Single, Some(acc + "'"), done)
  {
    var s := "'\"'\"'" + tail;
    assert s[1..] == "\"'\"'" + tail;
    assert s[1..][1..] == "'\"'" + tail;
    assert s[1..][1..][1..] == "\"'" + tail;
    assert s[1..][1..][1..][1..] == "'" + tail;
    assert s[1..][1..][1..][1..][1..] == tail;
    assert Fields("'" + tail, Plain, Some(acc + "'"), done) == Fields(tail, Single, Some(acc + "'"), done);
    assert Fields("\"'" + tail, Double, Some(acc + "'"), done) == Fields("'" + tail, Plain, Some(acc + "'"), done);
    assert Fields("'\"'" + tail, Double, Some(acc), done) == Fields("\"'" + tail, Double, Some(acc + "'"), done);
    assert Fields("\"'\"'" + tail, Plain, Some(acc), done) == Fields("'\"'" + tail, Double, Some(acc), done);
  }

  lemma ScanBare(v: string, rest: string, done: seq<string>)
    requires v != "" && AllSafe(v) && Placed(v, done)
    ensures Fields(v + rest, Plain, None, done) == Fields(rest, Plain, Some(v), done)
  {
    var c := v[0];
    assert (v + rest)[0] == c && (v + rest)[1..] == v[1..] + rest;
    assert Add(None, c) == Some([c]) by { assert "" + [c] == [c]; }
    assert Fields(v + rest, Plain, None, done) == Fields(v[1..] + rest, Plain, Some([c]), done);
    ScanSafe(v[1..], [c], rest, done);
    assert [c] + v[1..] == v;
  }

  lemma ScanQuoted(v: string, rest: string, done: seq<string>)
    ensures Fields("'" + Escape(v) + "'" + rest, Plain, None, done) == Fields(rest, Plain, Some(v), done)
  {
    var s := "'" + Escape(v) + "'" + rest;
    assert s[1..] == Escape(v) + "'" + rest;
    ScanEscaped(v, "", rest, done);
    assert "" + v == v;
  }

  function Push(done: seq<string>, v: string): seq<string> {
    if v == "" then done else done + [v]
  }

  /** A printed argument reads back as itself, and an empty one as nothing. */
  lemma ScanArgument(v: string, rest: string, done: seq<string>)
    requires v != "" ==> Placed(v, done)
    requires rest == "" || rest[0] == ' '
    ensures Fields(Quote(v) + rest, Plain, None, done)
            == if rest == "" then Some(Push(done, v)) else Fields(rest[1..], Plain, None, Push(done, v))
  {
    if v == "" {
      assert Quote(v) + rest == rest;
    } else if AllSafe(v) {
      ScanBare(v, rest, done);
    } else {
      ScanQuoted(v, rest, done);
    }
  }

  function NonEmpty(args: seq<string>): seq<string> {
    if args == [] then [] else Push([], args[0]) + NonEmpty(args[1..])
  }

  lemma {:induction false} ScanPrinted(args: seq<string>, done: seq<string>)
    requires args != [] && (done == [] ==> args[0] != "" && '=' !in args[0])
    ensures Fields(Print(args), Plain, None, done) == Some(done + NonEmpty(args))
    decreases args
  {
    var v, others := args[0], args[1..];
    PushNonEmpty(args, done);
    if |args| == 1 {
      assert args == [v];
      PushLast(v, done);
      ScanArgument(v, "", done);
    } else {
      ScanArgument(v, " " + Print(others), done);
      assert (" " + Print(others))[1..] == Print(others);
      ScanPrinted(others, Push(done, v));
    }
  }

  lemma PushAppends(done: seq<string>, v: string)
    ensures Push(done, v) == done + Push([], v)
  {
    assert [] + [v] == [v];
  }

  lemma PushNonEmpty(args: seq<string>, done: seq<string>)
    requires args != []
    ensures done + NonEmpty(args) == Push(done, args[0]) + NonEmpty(args[1..])
  {
    PushAppends(done, args[0]);
    Regroup(done, Push([], args[0]), NonEmpty(args[1..]));
  }

  lemma PushLast(arg: string, done: seq<string>)
    ensures done + NonEmpty([arg]) == Push(done, arg)
  {
    PushNonEmpty([arg], done);
    assert NonEmpty([arg][1..]) == [];
  }

  lemma {:induction false} NonEmptyShrinks(args: seq<string>)
    ensures |NonEmpty(args)| <= |args|
    ensures NonEmpty(args) == args <==> "" !in args
  {
    if args != [] {
      NonEmptyShrinks(args[1..]);
      assert args == [args[0]] + args[1..];
    }
  }

  /** A command whose first word is a plain name reads back as its argument
      list exactly when no argument is empty. */
  lemma PrintedCommandReadsBack(args: seq<string>)
    requires args != [] && args[0] != "" && '=' !in args[0]
    ensures ReadCommand(Print(args)) == Some(args) <==> "" !in args
  {
    ScanPrinted(args, []);
    NonEmptyShrinks(args);
    assert [] + NonEmpty(args) == NonEmpty(args);
  }
}
