/** Quoting one value for a POSIX shell, checked against a reader of shell words. */
module ShellQuote {
  import opened Strings

  function ShQuote(value: string): string {
    "'" + Escaped(value) + "'"
  }

  /** Every `'` becomes `'\''`. */
  function Escaped(value: string): string {
    if value == "" then ""
    else (if value[0] == '\'' then "'\\''" else [value[0]]) + Escaped(value[1..])
  }

  /** Where the reader is: between words, or in a word read so far, outside quotes,
      inside single quotes or inside double quotes. */
  datatype Mode = Between | Word(word: string) | Single(word: string) | Double(word: string)

  /** Characters that mean something else outside quotes: operators, expansions,
      patterns, and the newline that ends a command. */
  predicate IsSpecial(c: char) {
    c in "|&;<>()$`*?[\n"
  }

  predicate StartsComment(mode: Mode, c: char) {
    mode == Between && (c == '#' || c == '~')
  }

  /** What is read so far of the word in progress. */
  function SoFar(mode: Mode): string {
    if mode == Between then "" else mode.word
  }

  /** The word in progress, if there is one. */
  function Pending(mode: Mode): seq<string> {
    if mode.Word? then [mode.word] else []
  }

  function Before(words: seq<string>, more: Option<seq<string>>): Option<seq<string>> {
    match more case None => None case Some(rest) => Some(words + rest)
  }

  /** Token recognition and quote removal, sections 2.2 and 2.3 of the Shell
      Command Language in IEEE Std 1003.1, for input made of words only. Input
      that would expand, operate or stay open is refused. */
  function ReadWords(s: string, mode: Mode): Option<seq<string>>
    decreases |s|
  {
    if s == "" then if mode.Single? || mode.Double? then None else Some(Pending(mode))
    else
      var c, rest := s[0], s[1..];
      match mode
      case Single(word) => ReadWords(rest, if c == '\'' then Word(word) else Single(word + [c]))
      case Double(word) =>
        if c == '"' then ReadWords(rest, Word(word))
        else if c == '$' || c == '`' then None
        else if c == '\\' && rest != "" && rest[0] in "$`\"\\" then ReadWords(rest[1..], Double(word + [rest[0]]))
        else if c == '\\' && rest != "" && rest[0] == '\n' then ReadWords(rest[1..], Double(word))
        else ReadWords(rest, Double(word + [c]))
      case _ =>
        if c == ' ' || c == '\t' then Before(Pending(mode), ReadWords(rest, Between))
        else if c == '\'' then ReadWords(rest, Single(SoFar(mode)))
        else if c == '"' then ReadWords(rest, Double(SoFar(mode)))
        else if c == '\\' then
          if rest == "" then None
          else if rest[0] == '\n' then ReadWords(rest[1..], mode)
          else ReadWords(rest[1..], Word(SoFar(mode) + [rest[0]]))
        else if IsSpecial(c) || StartsComment(mode, c) then None
        else ReadWords(rest, Word(SoFar(mode) + [c]))
  }

  /** Inside single quotes the escaped value reads back as the value. */
  lemma {:induction false} EscapedReadsBack(value: string, tail: string, word: string)
    ensures ReadWords(Escaped(value) + tail, Single(word)) == ReadWords(tail, Single(word + value))
  {
    if value == "" {
      assert Escaped(value) + tail == tail && word + value == word;
    } else {
      var c, more := value[0], Escaped(value[1..]) + tail;
      EscapedReadsBack(value[1..], tail, word + [c]);
      assert (word + [c]) + value[1..] == word + value;
      if c == '\'' {
        QuoteInside(more, word);
        assert Escaped(value) + tail == "'\\''" + more;
      } else {
        assert Escaped(value) + tail == [c] + more && ([c] + more)[1..] == more;
      }
    }
  }

  /** `'\''` inside single quotes closes them, takes one quote, and opens them again. */
  lemma QuoteInside(more: string, word: string)
    ensures ReadWords("'\\''" + more, Single(word)) == ReadWords(more, Single(word + "'"))
  {
    var s := "'\\''" + more;
    var s1, s2, s3 := "\\''" + more, "'" + more, more;
    assert s[0] == '\'' && s[1..] == s1;
    assert s1[0] == '\\' && s1[1..][0] == '\'' && s1[1..][1..] == s2;
    assert s2[0] == '\'' && s2[1..] == s3;
    assert ReadWords(s, Single(word)) == ReadWords(s1, Word(word));
    assert ReadWords(s1, Word(word)) == ReadWords(s2, Word(word + "'"));
    assert ReadWords(s2, Word(word + "'")) == ReadWords(s3, Single(word + "'"));
  }

  /** A quoted value adds exactly itself to the word in progress, wherever it is
      written and whatever follows. */
  lemma QuotedReadsBack(value: string, tail: string, mode: Mode)
    requires mode == Between || mode.Word?
    ensures ReadWords(ShQuote(value) + tail, mode) == ReadWords(tail, Word(SoFar(mode) + value))
  {
    var s := ShQuote(value) + tail;
    assert s[0] == '\'' && s[1..] == Escaped(value) + ("'" + tail);
    EscapedReadsBack(value, "'" + tail, SoFar(mode));
    assert ("'" + tail)[1..] == tail;
  }

  /** Any value at all reads back as one word equal to it. */
  lemma QuotedIsOneWord(value: string)
    ensures ReadWords(ShQuote(value), Between) == Some([value])
  {
    QuotedReadsBack(value, "", Between);
    assert ShQuote(value) + "" == ShQuote(value) && "" + value == value;
  }

  function QuoteAll(values: seq<string>): seq<string> {
    if values == [] then [] else [ShQuote(values[0])] + QuoteAll(values[1..])
  }

  /** A quoted argument followed by a blank is one word, then the rest. */
  lemma QuotedThenMore(value: string, more: string)
    ensures ReadWords(ShQuote(value) + (" " + more), Between) == Before([value], ReadWords(more, Between))
  {
    var tail := " " + more;
    QuotedReadsBack(value, tail, Between);
    assert "" + value == value;
    assert tail[0] == ' ' && tail[1..] == more;
  }

  /** A quoted argument list reads back as the list. */
  lemma {:induction false} QuotedListReadsBack(values: seq<string>)
    ensures ReadWords(Join(QuoteAll(values), ' '), Between) == Some(values)
  {
    if values != [] {
      var first, others := values[0], values[1..];
      assert values == [first] + others;
      assert QuoteAll(values)[1..] == QuoteAll(others);
      if others == [] {
        QuotedIsOneWord(first);
        assert QuoteAll(values) == [ShQuote(first)] && values == [first];
      } else {
        var rest := Join(QuoteAll(others), ' ');
        QuotedListReadsBack(others);
        QuotedThenMore(first, rest);
        assert Join(QuoteAll(values), ' ') == ShQuote(first) + (" " + rest);
      }
    }
  }
}
