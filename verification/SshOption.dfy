/** One ssh `-o` option that lists files, quoted for the shell and for ssh. */
module SshOption {
  import opened Strings
  import opened ShellQuote

  /** Where ssh is in an option's value: between files, in a bare file, or inside
      double quotes. */
  datatype SshMode = Outside | Bare(file: string) | Quoted(file: string)

  predicate IsSpace(c: char) {
    c == ' ' || c == '\t'
  }

  /** ssh splits the value on white space; double quotes keep white space in, and
      nothing escapes a double quote. */
  function SshFiles(s: string, mode: SshMode): Option<seq<string>> {
    if s == "" then
      match mode
      case Outside => Some([])
      case Bare(file) => Some([file])
      case Quoted(_) => None
    else
      var c, rest := s[0], s[1..];
      match mode
      case Outside =>
        if IsSpace(c) then SshFiles(rest, Outside)
        else if c == '"' then SshFiles(rest, Quoted(""))
        else SshFiles(rest, Bare([c]))
      case Bare(file) =>
        if IsSpace(c) then Cons(file, SshFiles(rest, Outside))
        else if c == '"' then SshFiles(rest, Quoted(file))
        else SshFiles(rest, Bare(file + [c]))
      case Quoted(file) =>
        if c == '"' then SshFiles(rest, Bare(file)) else SshFiles(rest, Quoted(file + [c]))
  }

  function Cons(file: string, more: Option<seq<string>>): Option<seq<string>> {
    match more case None => None case Some(files) => Some([file] + files)
  }

  datatype SshSetting = SshSetting(name: string, files: seq<string>)

  /** `Name=value`, cut at the first `=`. */
  function ReadSetting(arg: string, name: string): Option<SshSetting>
    decreases |arg|
  {
    if arg == "" then None
    else if arg[0] == '=' then
      match SshFiles(arg[1..], Outside) case None => None case Some(files) => Some(SshSetting(name, files))
    else ReadSetting(arg[1..], name + [arg[0]])
  }

  function WrapAll(paths: seq<string>): seq<string> {
    if paths == [] then [] else WrapAll(paths[..|paths| - 1]) + ["\"" + paths[|paths| - 1] + "\""]
  }

  function OptionText(option: string, paths: seq<string>): string {
    "-o " + ShQuote(option + "=" + Join(WrapAll(paths), ' '))
  }

  ghost predicate ReadsAs(text: string, arg: string, option: string, paths: seq<string>) {
    && ReadWords(text, Between) == Some(["-o", arg])
    && ('=' !in option ==> ReadSetting(arg, "") == Some(SshSetting(option, paths)))
  }

  /** Refuses exactly the lists that hold a double quote; what it prints for any
      other, the shell reads as `-o` and one argument, and ssh reads that argument
      as the option's name and the very paths. */
  method SshFileListOption(option: string, paths: seq<string>) returns (text: Option<string>)
    ensures text.None? <==> exists p | p in paths :: '"' in p
    ensures text.Some? ==> exists arg :: ReadsAs(text.value, arg, option, paths)
  {
    for i := 0 to |paths|
      invariant forall p | p in paths[..i] :: '"' !in p
    {
      if '"' in paths[i] { return None; }
    }
    assert paths[..|paths|] == paths;
    TwoParsersAgree(option, paths);
    return Some(OptionText(option, paths));
  }

  lemma {:induction false} QuotedFile(path: string, tail: string, file: string)
    requires '"' !in path
    ensures SshFiles(path + "\"" + tail, Quoted(file)) == SshFiles(tail, Bare(file + path))
  {
    var s := path + "\"" + tail;
    if path == "" {
      assert s[0] == '"' && s[1..] == tail && file + path == file;
    } else {
      assert s[0] == path[0] && s[1..] == path[1..] + "\"" + tail;
      QuotedFile(path[1..], tail, file + [path[0]]);
      assert (file + [path[0]]) + path[1..] == file + path;
    }
  }

  lemma WrappedFile(path: string, tail: string)
    requires '"' !in path
    ensures SshFiles("\"" + path + "\"" + tail, Outside) == SshFiles(tail, Bare(path))
  {
    var s := "\"" + path + "\"" + tail;
    assert s[0] == '"' && s[1..] == path + "\"" + tail;
    QuotedFile(path, tail, "");
    assert "" + path == path;
  }

  lemma {:induction false} WrapAllFirst(paths: seq<string>)
    requires paths != []
    ensures WrapAll(paths) == ["\"" + paths[0] + "\""] + WrapAll(paths[1..])
  {
    var n := |paths| - 1;
    if n > 0 {
      WrapAllFirst(paths[..n]);
      assert paths[..n][1..] == paths[1..][..n - 1];
    }
  }

  lemma {:induction false} FilesReadBack(paths: seq<string>)
    requires forall p | p in paths :: '"' !in p
    ensures SshFiles(Join(WrapAll(paths), ' '), Outside) == Some(paths)
  {
    if paths != [] {
      var first, others := paths[0], paths[1..];
      assert paths == [first] + others;
      WrapAllFirst(paths);
      assert WrapAll(paths)[1..] == WrapAll(others);
      if others == [] {
        WrappedFile(first, "");
        assert "\"" + first + "\"" + "" == "\"" + first + "\"";
        assert WrapAll(paths) == ["\"" + first + "\""] && paths == [first];
      } else {
        var rest := Join(WrapAll(others), ' ');
        var tail := " " + rest;
        FilesReadBack(others);
        WrapAllFirst(others);
        WrappedFile(first, tail);
        assert Join(WrapAll(paths), ' ') == "\"" + first + "\"" + tail;
        assert tail[0] == ' ' && tail[1..] == rest;
      }
    }
  }

  lemma {:induction false} SettingReadBack(option: string, value: string, name: string)
    requires '=' !in option
    ensures ReadSetting(option + "=" + value, name) ==
      match SshFiles(value, Outside) case None => None case Some(files) => Some(SshSetting(name + option, files))
  {
    var s := option + "=" + value;
    if option == "" {
      assert s[0] == '=' && s[1..] == value && name + option == name;
    } else {
      assert s[0] == option[0] && s[1..] == option[1..] + "=" + value;
      SettingReadBack(option[1..], value, name + [option[0]]);
      assert (name + [option[0]]) + option[1..] == name + option;
    }
  }

  lemma DashO(tail: string)
    ensures ReadWords("-o " + tail, Between) == Before(["-o"], ReadWords(tail, Between))
  {
    var s, s1, s2 := "-o " + tail, "o " + tail, " " + tail;
    assert s[0] == '-' && s[1..] == s1;
    assert s1[0] == 'o' && s1[1..] == s2;
    assert s2[0] == ' ' && s2[1..] == tail;
    PlainChar(s, Between);
    PlainChar(s1, Word("-"));
    assert "" + ['-'] == "-" && "-" + ['o'] == "-o";
  }

  lemma PlainChar(s: string, mode: Mode)
    requires s != "" && (s[0] == '-' || s[0] == 'o') && (mode == Between || mode.Word?)
    ensures ReadWords(s, mode) == ReadWords(s[1..], Word(SoFar(mode) + [s[0]]))
  {
  }

  lemma TwoParsersAgree(option: string, paths: seq<string>)
    requires forall p | p in paths :: '"' !in p
    ensures exists arg :: ReadsAs(OptionText(option, paths), arg, option, paths)
  {
    var arg := option + "=" + Join(WrapAll(paths), ' ');
    DashO(ShQuote(arg));
    QuotedIsOneWord(arg);
    assert ["-o"] + [arg] == ["-o", arg];
    if '=' !in option {
      FilesReadBack(paths);
      SettingReadBack(option, Join(WrapAll(paths), ' '), "");
      assert "" + option == option;
    }
    assert ReadsAs(OptionText(option, paths), arg, option, paths);
  }

  /** Why a double quote is refused: ssh reads no value as a list with one in it. */
  lemma {:induction false} NoFileHoldsAQuote(s: string, mode: SshMode)
    requires mode.Outside? || '"' !in mode.file
    ensures SshFiles(s, mode).Some? ==> forall f | f in SshFiles(s, mode).value :: '"' !in f
  {
    if s != "" {
      var c, rest := s[0], s[1..];
      match mode
      case Outside =>
        if IsSpace(c) { NoFileHoldsAQuote(rest, Outside); }
        else if c == '"' { NoFileHoldsAQuote(rest, Quoted("")); }
        else { NoFileHoldsAQuote(rest, Bare([c])); }
      case Bare(file) =>
        if IsSpace(c) { NoFileHoldsAQuote(rest, Outside); }
        else if c == '"' { NoFileHoldsAQuote(rest, Quoted(file)); }
        else { NoFileHoldsAQuote(rest, Bare(file + [c])); }
      case Quoted(file) =>
        if c == '"' { NoFileHoldsAQuote(rest, Bare(file)); }
        else { NoFileHoldsAQuote(rest, Quoted(file + [c])); }
    }
  }
}
