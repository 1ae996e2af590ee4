/**
 * The line handling of the echo shell: the newline `read_command` strips,
 * the `strtok` split of `parse_command` on spaces and tabs, keeping at most
 * `MAX_ARGS` words, and the built-in check of `execute_command`.
 */
module Shell {
  import opened Wrappers

  /** Words kept by `parse_command`; `args` has one more slot for the NULL. */
  const MAX_ARGS: nat := 10

  /** The delimiters `parse_command` hands to `strtok`. */
  predicate IsDelim(ch: char)
  {
    ch == ' ' || ch == '\t'
  }

  /** A word `strtok` can return: not empty, no delimiter inside. */
  predicate IsWord(w: string)
  {
    |w| > 0 && forall i :: 0 <= i < |w| ==> !IsDelim(w[i])
  }

  predicate AllDelims(s: string)
  {
    forall i :: 0 <= i < |s| ==> IsDelim(s[i])
  }

  /** The C string `buf` holds: its characters up to the first NUL, where
      `strlen` stops counting and `strtok` sees the end. */
  function CString(buf: string): (r: string)
    ensures r <= buf
    ensures forall i :: 0 <= i < |r| ==> r[i] != '\0'
    ensures |r| < |buf| ==> buf[|r|] == '\0'
  {
    if |buf| == 0 || buf[0] == '\0' then [] else [buf[0]] + CString(buf[1..])
  }

  /** A buffer with no NUL is its own C string; a NUL cuts off the rest. */
  lemma {:induction false} CStringCut(a: string, b: string)
    requires forall i :: 0 <= i < |a| ==> a[i] != '\0'
    ensures CString(a) == a
    ensures CString(a + "\0" + b) == a
  {
    if |a| > 0 {
      assert (a + "\0" + b)[1..] == a[1..] + "\0" + b;
      CStringCut(a[1..], b);
    } else {
      assert (a + "\0" + b)[0] == '\0';
    }
  }

  /** The line `read_command` hands on: the C string the buffer holds,
      with one trailing newline dropped. */
  function StripNewline(buf: string): (r: string)
    ensures var c := CString(buf);
      && (|c| > 0 && c[|c| - 1] == '\n' ==> r + "\n" == c)
      && (!(|c| > 0 && c[|c| - 1] == '\n') ==> r == c)
  {
    var c := CString(buf);
    if |c| > 0 && c[|c| - 1] == '\n' then c[..|c| - 1] else c
  }

  /** Index of the first delimiter of `s` at or after `i`, or `|s|`. */
  function DelimFrom(s: string, i: nat): (j: nat)
    requires i <= |s|
    ensures i <= j <= |s|
    ensures forall k :: i <= k < j ==> !IsDelim(s[k])
    ensures j < |s| ==> IsDelim(s[j])
    decreases |s| - i
  {
    if i == |s| || IsDelim(s[i]) then i else DelimFrom(s, i + 1)
  }

  /** Index of the first non-delimiter of `s` at or after `i`, or `|s|`. */
  function WordFrom(s: string, i: nat): (j: nat)
    requires i <= |s|
    ensures i <= j <= |s|
    ensures forall k :: i <= k < j ==> IsDelim(s[k])
    ensures j < |s| ==> !IsDelim(s[j])
    decreases |s| - i
  {
    if i == |s| || !IsDelim(s[i]) then i else WordFrom(s, i + 1)
  }

  /**
   * One call of `strtok`: skip the leading delimiters, then take the word
   * up to the next delimiter, which is consumed with it. `None` when only
   * delimiters are left.
   */
  function NextToken(s: string): (r: Option<(string, string)>)
  {
    var a := WordFrom(s, 0);
    if a == |s| then None
    else
      var b := DelimFrom(s, a);
      Some((s[a..b], if b < |s| then s[b + 1..] else []))
  }

  /** A token is a word, and what follows it is shorter than the input. */
  lemma NextTokenWord(s: string)
    requires NextToken(s).Some?
    ensures IsWord(NextToken(s).value.0)
    ensures |NextToken(s).value.1| < |s|
  {
    var a := WordFrom(s, 0);
    var b := DelimFrom(s, a);
    assert s[a..b][0] == s[a];
  }

  /** `strtok` finds nothing exactly on a line of delimiters only. */
  lemma NextTokenNone(s: string)
    ensures NextToken(s).None? <==> AllDelims(s)
  {
    var a := WordFrom(s, 0);
    if a < |s| {
      assert !IsDelim(s[a]);
    }
  }

  /** Every word of the line, in order, as repeated `strtok` calls give. */
  function Tokens(s: string): (r: seq<string>)
    decreases |s|
  {
    match NextToken(s)
    case None => []
    case Some((w, rest)) =>
      NextTokenWord(s);
      [w] + Tokens(rest)
  }

  /** The first `n` words of `ws`, or all of them when there are fewer. */
  function Take(ws: seq<string>, n: nat): (r: seq<string>)
    ensures |r| <= n && r <= ws
    ensures |ws| <= n ==> r == ws
  {
    if |ws| <= n then ws else ws[..n]
  }

  /**
   * `parse_command`: `strtok` is called while it finds a word and fewer
   * than `MAX_ARGS` were kept. The returned count is `|args|`.
   */
  method ParseCommand(line: string) returns (args: seq<string>)
    ensures |args| <= MAX_ARGS
    ensures args == Take(Tokens(line), MAX_ARGS)
  {
    args := [];
    var rest := line;
    var token := NextToken(rest);
    while token.Some? && |args| < MAX_ARGS
      invariant |args| <= MAX_ARGS
      invariant token == NextToken(rest)
      invariant Take(Tokens(line), MAX_ARGS) == args + Take(Tokens(rest), MAX_ARGS - |args|)
      decreases |rest|
    {
      ParseStep(line, args, rest);
      NextTokenWord(rest);
      args := args + [token.value.0];
      rest := token.value.1;
      token := NextToken(rest);
    }
    if token.None? {
      assert Tokens(rest) == [];
    }
    assert args + [] == args;
  }

  /** One more `strtok` call of `parse_command` keeps its words in line. */
  lemma ParseStep(line: string, args: seq<string>, rest: string)
    requires |args| < MAX_ARGS && NextToken(rest).Some?
    requires Take(Tokens(line), MAX_ARGS) == args + Take(Tokens(rest), MAX_ARGS - |args|)
    ensures Take(Tokens(line), MAX_ARGS)
         == (args + [NextToken(rest).value.0]) + Take(Tokens(NextToken(rest).value.1), MAX_ARGS - |args| - 1)
  {
    var (w, rest') := NextToken(rest).value;
    assert Tokens(rest) == [w] + Tokens(rest');
    TakeCons(w, Tokens(rest'), MAX_ARGS - |args|);
  }

  lemma TakeCons(w: string, ws: seq<string>, n: nat)
    requires n > 0
    ensures Take([w] + ws, n) == [w] + Take(ws, n - 1)
  {
    if |ws| > n - 1 {
      assert ([w] + ws)[..n] == [w] + ws[..n - 1];
    }
  }

  /** Every word of a line is a word: not empty, no space or tab inside. */
  lemma {:induction false} TokensAreWords(s: string)
    ensures forall i :: 0 <= i < |Tokens(s)| ==> IsWord(Tokens(s)[i])
    decreases |s|
  {
    match NextToken(s)
    case None =>
    case Some((w, rest)) =>
      NextTokenWord(s);
      TokensAreWords(rest);
      assert Tokens(s) == [w] + Tokens(rest);
  }

  /** A line has no words exactly when it is blank: spaces and tabs only. */
  lemma TokensBlank(s: string)
    ensures Tokens(s) == [] <==> AllDelims(s)
  {
    NextTokenNone(s);
    if NextToken(s).Some? {
      assert Tokens(s) == [NextToken(s).value.0] + Tokens(NextToken(s).value.1);
    }
  }

  /** The line without its spaces and tabs. */
  function Squeeze(s: string): (r: string)
  {
    if |s| == 0 then []
    else if IsDelim(s[0]) then Squeeze(s[1..])
    else [s[0]] + Squeeze(s[1..])
  }

  /** The words of `ws` written one after the other. */
  function Join(ws: seq<string>): (r: string)
  {
    if |ws| == 0 then [] else ws[0] + Join(ws[1..])
  }

  lemma SqueezeAppend(a: string, b: string)
    ensures Squeeze(a + b) == Squeeze(a) + Squeeze(b)
  {
    if |a| > 0 {
      assert (a + b)[1..] == a[1..] + b;
    } else {
      assert a + b == b;
    }
  }

  lemma SqueezeDelims(s: string)
    requires AllDelims(s)
    ensures Squeeze(s) == []
  {
  }

  lemma SqueezeWord(w: string)
    requires forall i :: 0 <= i < |w| ==> !IsDelim(w[i])
    ensures Squeeze(w) == w
  {
    if |w| > 0 {
      SqueezeWord(w[1..]);
      assert w == [w[0]] + w[1..];
    }
  }

  /** The line read by `strtok` step by step: skipped delimiters, the word,
      the delimiter consumed with it, and the rest. */
  lemma NextTokenSplits(s: string)
    requires NextToken(s).Some?
    ensures Squeeze(s) == NextToken(s).value.0 + Squeeze(NextToken(s).value.1)
  {
    var a := WordFrom(s, 0);
    var b := DelimFrom(s, a);
    SqueezeWord(s[a..b]);
    if b < |s| {
      SqueezeCut(s, a, b, [s[b]], s[b + 1..]);
    } else {
      SqueezeCut(s, a, b, [], []);
    }
  }

  /** The line cut into its leading delimiters, the word at `a..b`, and
      what follows. */
  lemma SqueezeCut(s: string, a: nat, b: nat, t: string, r: string)
    requires a <= b <= |s| && s[b..] == t + r && AllDelims(t)
    requires forall k :: 0 <= k < a ==> IsDelim(s[k])
    requires Squeeze(s[a..b]) == s[a..b]
    ensures Squeeze(s) == s[a..b] + Squeeze(r)
  {
    assert AllDelims(s[..a]) by {
      forall i | 0 <= i < a ensures IsDelim(s[..a][i]) { assert s[..a][i] == s[i]; }
    }
    assert s == s[..a] + s[a..b] + t + r by {
      assert s == s[..a] + s[a..b] + s[b..];
    }
    SqueezeParts(s[..a], s[a..b], t, r);
  }

  lemma SqueezeParts(p: string, w: string, t: string, r: string)
    requires AllDelims(p) && AllDelims(t) && Squeeze(w) == w
    ensures Squeeze(p + w + t + r) == w + Squeeze(r)
  {
    SqueezeDelims(p);
    SqueezeDelims(t);
    SqueezeAppend(p + w + t, r);
    SqueezeAppend(p + w, t);
    SqueezeAppend(p, w);
    calc {
      Squeeze(p + w + t + r);
      Squeeze(p + w + t) + Squeeze(r);
      Squeeze(p + w) + Squeeze(t) + Squeeze(r);
      Squeeze(p) + Squeeze(w) + Squeeze(t) + Squeeze(r);
      { assert Squeeze(p) + w + [] == w; }
      w + Squeeze(r);
    }
  }

  /**
   * Nothing but the delimiters is lost and the words keep their order:
   * the words written together are the line without its spaces and tabs.
   */
  lemma {:induction false} TokensKeepText(s: string)
    ensures Join(Tokens(s)) == Squeeze(s)
    decreases |s|
  {
    match NextToken(s)
    case None =>
      NextTokenNone(s);
      SqueezeDelims(s);
    case Some((w, rest)) =>
      NextTokenWord(s);
      NextTokenSplits(s);
      TokensKeepText(rest);
      assert Tokens(s) == [w] + Tokens(rest);
      assert ([w] + Tokens(rest))[1..] == Tokens(rest);
  }

  /** The words written with one space between each. */
  function Unwords(ws: seq<string>): (r: string)
  {
    if |ws| == 0 then [] else if |ws| == 1 then ws[0] else ws[0] + " " + Unwords(ws[1..])
  }

  /** `strtok` takes a word off a line that starts with it. */
  lemma NextTokenOf(w: string, rest: string)
    requires IsWord(w)
    requires rest == [] || rest[0] == ' '
    ensures NextToken(w + rest) == Some((w, if rest == [] then [] else rest[1..]))
  {
    var s := w + rest;
    assert WordFrom(s, 0) == 0;
    DelimAfterWord(s, w, 0);
    assert s[0..|w|] == w;
    if rest != [] {
      assert s[|w| + 1..] == rest[1..];
    }
  }

  lemma DelimAfterWord(s: string, w: string, i: nat)
    requires i <= |w| <= |s| && s[..|w|] == w
    requires forall k :: 0 <= k < |w| ==> !IsDelim(w[k])
    requires |w| < |s| ==> IsDelim(s[|w|])
    ensures DelimFrom(s, i) == |w|
    decreases |w| - i
  {
    if i < |w| {
      assert s[i] == w[i];
      DelimAfterWord(s, w, i + 1);
    }
  }

  /** Splitting words written with single spaces gives the words back. */
  lemma {:induction false} TokensUnwords(ws: seq<string>)
    requires forall i :: 0 <= i < |ws| ==> IsWord(ws[i])
    ensures Tokens(Unwords(ws)) == ws
    decreases |ws|
  {
    if |ws| == 0 {
    } else if |ws| == 1 {
      NextTokenOf(ws[0], []);
      assert ws[0] + [] == ws[0];
      assert Tokens([]) == [];
    } else {
      var rest := " " + Unwords(ws[1..]);
      assert Unwords(ws) == ws[0] + rest;
      NextTokenOf(ws[0], rest);
      assert rest[1..] == Unwords(ws[1..]);
      TokensUnwords(ws[1..]);
      assert ws == [ws[0]] + ws[1..];
    }
  }

  /** What `execute_command` does with a parsed command line. */
  datatype Action =
    | Exit                 // "exit": the shell ends
    | CdMissing            // "cd" alone: an error message, nothing else
    | Chdir(dir: string)   // "cd dir": change directory; later words are ignored
    | Spawn(argv: seq<string>)  // anything else: fork and exec `argv`

  /**
   * `execute_command` on the words `args`, which `main` passes on only
   * when there is at least one.
   */
  function Execute(args: seq<string>): (r: Action)
    requires |args| > 0
    ensures r.Exit? <==> args[0] == "exit"
    ensures r.CdMissing? <==> args[0] == "cd" && |args| == 1
    ensures r.Chdir? <==> args[0] == "cd" && |args| > 1
    ensures r.Chdir? ==> r.dir == args[1]
    ensures r.Spawn? ==> r.argv == args
  {
    if args[0] == "exit" then Exit
    else if args[0] == "cd" then (if |args| == 1 then CdMissing else Chdir(args[1]))
    else Spawn(args)
  }

  /**
   * One round of the `main` loop on the characters `fgets` stored: strip
   * the newline, split, and act when the line had a word.
   */
  method HandleLine(buf: string) returns (r: Option<Action>)
    ensures r.None? <==> AllDelims(StripNewline(buf))
    ensures r.Some? ==> r.value == Execute(Take(Tokens(StripNewline(buf)), MAX_ARGS))
  {
    var args := ParseCommand(StripNewline(buf));
    TokensBlank(StripNewline(buf));
    if |args| > 0 {
      r := Some(Execute(args));
    } else {
      r := None;
    }
  }

  /** The line "cd dir" asks to change to `dir`. */
  lemma CdLine(dir: string)
    requires IsWord(dir)
    ensures Execute(Tokens(Unwords(["cd", dir]))) == Chdir(dir)
  {
    assert IsWord("cd") by { assert "cd"[0] == 'c'; assert "cd"[1] == 'd'; }
    TokensUnwords(["cd", dir]);
  }

  /** A line typed with its newline, and no NUL, loses only the newline. */
  lemma StripTyped(line: string)
    requires forall i :: 0 <= i < |line| ==> line[i] != '\0'
    ensures StripNewline(line + "\n") == line
  {
    CStringCut(line + "\n", "");
    assert (line + "\n")[..|line|] == line;
  }

  /** A NUL inside the line hides everything after it: the line handled is
      the part before the NUL. */
  lemma StripNul(a: string, b: string)
    requires forall i :: 0 <= i < |a| ==> a[i] != '\0' && a[i] != '\n'
    ensures StripNewline(a + "\0" + b) == a
  {
    CStringCut(a, b);
  }
}
