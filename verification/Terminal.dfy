/** Whether a process has no controlling terminal, from the line the kernel prints about it
    (proc_has_no_tty in src/janitor.rs). */
module Terminal {
  import opened Wrappers
  import opened Text
  import opened Numbers

  const I64_MAX: int := 0x7FFF_FFFF_FFFF_FFFF

  /** What follows the last occurrence of a character. */
  function AfterLast(s: string, c: char): Option<string> {
    if s == "" then None
    else
      match AfterLast(s[1..], c)
      case Some(rest) => Some(rest)
      case None => if s[0] == c then Some(s[1..]) else None
  }

  function ParseSigned(s: string): Option<int> {
    if s != "" && s[0] == '-' then
      if s[1..] == "" then None
      else
        match Read(s[1..], Ten)
        case Some(v) => if v <= I64_MAX + 1 then Some(0 - v) else None
        case None => None
    else
      match ParseUnsigned(s, I64_MAX)
      case Some(v) => Some(v)
      case None => None
  }

  /** An unreadable or malformed line counts as having a terminal. */
  function HasNoTty(stat: Option<string>): bool {
    match stat
    case None => false
    case Some(line) =>
      match AfterLast(line, ')')
      case None => false
      case Some(after) =>
        var toks := Words(after);
        |toks| >= 5 && ParseSigned(toks[4]) == Some(0)
  }

  /** Zeros, with a sign or without. */
  predicate IsZero(s: string) {
    if s != "" && (s[0] == '+' || s[0] == '-') then s[1..] != "" && Zeros(s[1..]) else s != "" && Zeros(s)
  }

  lemma ZeroIff(s: string)
    ensures ParseSigned(s) == Some(0) <==> IsZero(s)
  {
    ReadIff(s);
    if s != "" {
      ReadIff(s[1..]);
    }
  }

  /** A process counts as having no terminal if and only if its line can be read, has a closing parenthesis, and the
      fifth word after the last one is a zero. */
  lemma HasNoTtyIff(stat: Option<string>)
    ensures HasNoTty(stat) <==>
      && stat.Some?
      && exists name, rest :: stat.value == name + ([')'] + rest) && ')' !in rest
           && |Words(rest)| >= 5 && IsZero(Words(rest)[4])
  {
    if stat.Some? {
      var line := stat.value;
      AfterLastSplits(line, ')');
      if AfterLast(line, ')').Some? {
        var rest := AfterLast(line, ')').value;
        if |Words(rest)| >= 5 {
          ZeroIff(Words(rest)[4]);
        }
      }
      forall name, rest | line == name + ([')'] + rest) && ')' !in rest
        ensures AfterLast(line, ')') == Some(rest)
      {
        AfterLastIs(name, ')', rest);
      }
    }
  }

  lemma {:induction false} AfterLastSplits(s: string, c: char)
    ensures AfterLast(s, c).None? ==> c !in s
    ensures AfterLast(s, c).Some? ==>
              var rest := AfterLast(s, c).value;
              c !in rest && exists a :: s == a + ([c] + rest)
  {
    if s != "" {
      AfterLastSplits(s[1..], c);
      match AfterLast(s[1..], c)
      case None =>
        assert s == "" + ([s[0]] + s[1..]);
      case Some(rest) =>
        var a :| s[1..] == a + ([c] + rest);
        assert s == ([s[0]] + a) + ([c] + rest);
    }
  }

  function ShowSigned(n: int): string {
    if n < 0 then "-" + Show(-n, Ten) else Show(n, Ten)
  }

  lemma {:induction false} NoneAfter(rest: string, c: char)
    requires c !in rest
    ensures AfterLast(rest, c) == None
  {
    if rest != "" {
      NoneAfter(rest[1..], c);
    }
  }

  lemma {:induction false} AfterLastIs(a: string, c: char, rest: string)
    requires c !in rest
    ensures AfterLast(a + ([c] + rest), c) == Some(rest)
  {
    var s := a + ([c] + rest);
    if a == "" {
      assert s[0] == c && s[1..] == rest;
      NoneAfter(rest, c);
    } else {
      assert s[0] == a[0] && s[1..] == a[1..] + ([c] + rest);
      AfterLastIs(a[1..], c, rest);
    }
  }

  lemma ParseOfSigned(n: int)
    requires -I64_MAX <= n <= I64_MAX
    ensures ParseSigned(ShowSigned(n)) == Some(n)
  {
    if n < 0 {
      var digits := Show(-n, Ten);
      ReadOfShow(-n, Ten);
      assert ("-" + digits)[1..] == digits;
    } else {
      var s := Show(n, Ten);
      ParseOfShow(n, I64_MAX);
      assert IsDigit(s[0]);
    }
  }

  predicate Field(w: string) {
    IsWord(w) && ')' !in w
  }

  lemma {:induction false} JoinLacksParenthesis(ws: seq<string>)
    requires forall i :: 0 <= i < |ws| ==> Field(ws[i])
    ensures ')' !in Join(ws, " ")
  {
    if |ws| > 1 {
      JoinLacksParenthesis(ws[1..]);
    }
  }

  /** Whatever the command's own name contains, spaces and parentheses included, the terminal number is
      read from its field: exactly number zero counts as none. */
  lemma TtyRecovered(pid: string, command: string, fields: seq<string>, tty: int)
    requires |fields| >= 5 && forall i :: 0 <= i < |fields| ==> Field(fields[i])
    requires -I64_MAX <= tty <= I64_MAX && fields[4] == ShowSigned(tty)
    ensures HasNoTty(Some(pid + " (" + command + ([')'] + (" " + Join(fields, " "))))) <==> tty == 0
  {
    var after := " " + Join(fields, " ");
    JoinLacksParenthesis(fields);
    AfterLastIs(pid + " (" + command, ')', after);
    WordsSkip(" ", Join(fields, " "));
    WordsOfJoin(fields);
    ParseOfSigned(tty);
  }
}
