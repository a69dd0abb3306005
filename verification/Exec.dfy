// do_exec3: when a command needs the shell, and how it is split when it does not.
module Exec {

  predicate IsSpace(c: char) {
    c == ' ' || c == '\t' || c == '\n' || c == '\r' || c == '\U{0C}'
  }

  predicate IsAlpha(c: char) {
    'a' <= c <= 'z' || 'A' <= c <= 'Z'
  }

  predicate IsAlnum(c: char) {
    IsAlpha(c) || '0' <= c <= '9' || c == '_'
  }

  predicate IsMeta(c: char) {
    c in {'$', '&', '*', '(', ')', '{', '}', '[', ']', '\'', '\"', ';', '\\', '|', '?', '<', '>', '~', '`', '\n'}
  }

  // The character at i of a string that ends in a NUL.
  function Peek(c: string, i: nat): char {
    if i < |c| then c[i] else '\0'
  }

  predicate IsText(c: string) {
    '\0' !in c
  }

  // ---- shell or not ----

  // A command that runs without a shell: the scan stopped at end, and what counts
  // reaches up to cut.
  datatype Plan = Shell | Direct(end: nat, cut: nat)

  // ". file" and "exec command"
  predicate SourcesOrExecs(c: string) {
    || (Peek(c, 0) == '.' && IsSpace(Peek(c, 1)))
    || ("exec" <= c && IsSpace(Peek(c, 4)))
  }

  // Where the leading letters, digits and underscores end.
  function NameEnd(c: string, i: nat): (e: nat)
    requires i <= |c|
    ensures i <= e <= |c|
    decreases |c| - i
  {
    if i < |c| && IsAlnum(c[i]) then NameEnd(c, i + 1) else i
  }

  // VAR=value
  predicate Assigns(c: string) {
    Peek(c, NameEnd(c, 0)) == '='
  }

  // Only white space from i on.
  predicate Blank(c: string, i: nat) {
    forall j :: i <= j < |c| ==> IsSpace(c[j])
  }

  // " 2>&1" at i - 2, with nothing but white space behind it.
  predicate Redirects(c: string, i: nat) {
    && Peek(c, i) == '>' && Peek(c, i + 1) == '&' && Peek(c, i + 2) == '1'
    && i > 1 && Peek(c, i - 1) == '2' && IsSpace(Peek(c, i - 2))
    && Blank(c, i + 3)
  }

  function Scan(c: string, i: nat, dupWorks: bool): Plan
    requires i <= |c|
    decreases |c| - i
  {
    if i == |c| then Direct(i, i)
    else if !IsMeta(c[i]) then Scan(c, i + 1, dupWorks)
    else if c[i] == '\n' && i + 1 == |c| then Direct(i, i)
    else if Redirects(c, i) && dupWorks then Direct(i, i - 2)
    else Shell
  }

  function PlanFor(c: string, dupWorks: bool): Plan {
    if SourcesOrExecs(c) || Assigns(c) then Shell else Scan(c, 0, dupWorks)
  }

  // ---- words ----

  predicate Starts(c: string, i: nat) {
    i < |c| && !IsSpace(c[i]) && (i == 0 || IsSpace(c[i - 1]))
  }

  // Where the words that start in the first n characters start.
  function WordStarts(c: string, n: nat): seq<nat>
    requires n <= |c|
  {
    if n == 0 then [] else WordStarts(c, n - 1) + if Starts(c, n - 1) then [n - 1] else []
  }

  // The end of the run of other characters that i is in.
  function RunEnd(c: string, i: nat): (e: nat)
    requires i <= |c|
    ensures i <= e <= |c|
    ensures forall j :: i <= j < e ==> !IsSpace(c[j])
    ensures e < |c| ==> IsSpace(c[e])
    decreases |c| - i
  {
    if i < |c| && !IsSpace(c[i]) then RunEnd(c, i + 1) else i
  }

  // ---- the code ----

  // while (*t && isSPACE(*t)) t++
  method SkipSpaces(a: array<char>, ghost n: nat, from: nat) returns (t: nat)
    requires from <= n < a.Length && a[n] == '\0'
    requires forall j :: from <= j < n ==> a[j] != '\0'
    ensures from <= t <= n && forall j :: from <= j < t ==> IsSpace(a[j])
    ensures t < n ==> !IsSpace(a[t])
  {
    t := from;
    while a[t] != '\0' && IsSpace(a[t])
      invariant from <= t <= n && forall j :: from <= j < t ==> IsSpace(a[j])
      decreases n - t
    {
      t := t + 1;
    }
  }

  // The redirection at the end, tested from left to right as far as it holds.
  method EndsInRedirect(a: array<char>, n: nat, cmd: nat, s: nat) returns (yes: bool)
    requires n < a.Length && a[n] == '\0' && IsText(a[..n]) && cmd <= s < n
    ensures yes == Redirects(a[cmd..n], s - cmd)
  {
    ghost var c := a[cmd..n];
    assert forall j :: cmd <= j < n ==> a[j] == c[j - cmd] && a[j] in a[..n];
    yes := false;
    if a[s] == '>' && a[s + 1] == '&' && a[s + 2] == '1'
       && s > cmd + 1 && a[s - 1] == '2' && IsSpace(a[s - 2])
       && (a[s + 3] == '\0' || IsSpace(a[s + 3]))
    {
      var t := SkipSpaces(a, n, s + 3);
      yes := a[t] == '\0';
      if !yes {
        assert !IsSpace(c[t - cmd]);
      }
    }
  }

  // ". file", "exec command" and VAR=value, looked for at the start.
  method Gizmo(a: array<char>, n: nat, cmd: nat) returns (yes: bool)
    requires n < a.Length && a[n] == '\0' && IsText(a[..n]) && cmd <= n
    ensures yes == (SourcesOrExecs(a[cmd..n]) || Assigns(a[cmd..n]))
  {
    ghost var c := a[cmd..n];
    assert forall j :: cmd <= j < n ==> a[j] == c[j - cmd] && a[j] in a[..n];
    yes := a[cmd] == '.' && IsSpace(a[cmd + 1]);
    if !yes {
      yes := cmd + 4 <= n && a[cmd..cmd + 4] == "exec" && IsSpace(a[cmd + 4]);
      assert cmd + 4 <= n ==> a[cmd..cmd + 4] == c[..4];
    }
    if !yes {
      var s := cmd;
      while a[s] != '\0' && IsAlnum(a[s])
        invariant cmd <= s <= n && NameEnd(c, 0) == NameEnd(c, s - cmd)
        decreases n - s
      {
        s := s + 1;
      }
      yes := a[s] == '=';
    }
  }

  // The scan for shell metacharacters.  dupWorks says whether dup2(1, 2) does.
  method ScanMeta(a: array<char>, n: nat, cmd: nat, dupWorks: bool) returns (plan: Plan)
    requires n < a.Length && a[n] == '\0' && IsText(a[..n]) && cmd <= n
    modifies a
    ensures plan == Scan(old(a[cmd..n]), 0, dupWorks)
    ensures plan.Shell? ==> a[..] == old(a[..])
    ensures plan.Direct? ==> plan.cut <= plan.end <= n - cmd
    ensures plan.Direct? ==> a[..] == old(a[..])[cmd + plan.cut := '\0']
  {
    ghost var c := a[cmd..n];
    assert forall j :: cmd <= j < n ==> a[j] == c[j - cmd] && a[j] in a[..n];
    var s := cmd;
    while a[s] != '\0'
      invariant cmd <= s <= n && a[..] == old(a[..])
      invariant Scan(c, 0, dupWorks) == Scan(c, s - cmd, dupWorks)
      decreases n - s
    {
      if IsMeta(a[s]) {
        if a[s] == '\n' && a[s + 1] == '\0' {
          a[s] := '\0';
          return Direct(s - cmd, s - cmd);
        }
        var redirects := EndsInRedirect(a, n, cmd, s);
        if redirects && dupWorks {
          a[s - 2] := '\0';
          return Direct(s - cmd, s - cmd - 2);
        }
        return Shell;
      }
      s := s + 1;
    }
    return Direct(s - cmd, s - cmd);
  }

  // c with the first white space after each word replaced by a NUL.
  function CutAt(c: string, j: nat): char
    requires j < |c|
  {
    if j > 0 && IsSpace(c[j]) && !IsSpace(c[j - 1]) then '\0' else c[j]
  }

  ghost predicate Cutting(buf: array<char>, c: string, p: nat)
    reads buf
  {
    && p <= |c| < buf.Length && buf[|c|] == '\0'
    && (forall j :: 0 <= j < p ==> buf[j] == CutAt(c, j))
    && (forall j :: p <= j < |c| ==> buf[j] == c[j])
  }

  lemma {:induction false} NoStarts(c: string, m: nat, n: nat)
    requires m <= n <= |c|
    requires forall j :: m <= j < n ==> !Starts(c, j)
    ensures WordStarts(c, n) == WordStarts(c, m)
  {
    if m < n {
      NoStarts(c, m, n - 1);
    }
  }

  // There is white space between two words.
  lemma {:induction false} StartsBound(c: string, n: nat)
    requires n <= |c|
    ensures 2 * |WordStarts(c, n)| <= n + if n > 0 && IsSpace(c[n - 1]) then 0 else 1
  {
    if n > 0 {
      StartsBound(c, n - 1);
    }
  }

  // Splits c, which buf holds, into words.  A pointer is a place in buf; -1 is the
  // null pointer.
  method Split(buf: array<char>, argv: array<int>, ghost c: string) returns (count: nat)
    requires Cutting(buf, c, 0) && IsText(c)
    requires argv.Length >= |c| / 2 + 2
    modifies buf, argv
    ensures Cutting(buf, c, |c|)
    ensures count < argv.Length && argv[..count] == WordStarts(c, |c|) && argv[count] == -1
  {
    var p := 0;
    count := 0;
    while buf[p] != '\0'
      invariant Cutting(buf, c, p)
      invariant p == 0 || p == |c| || IsSpace(c[p - 1])
      invariant count < argv.Length && argv[..count] == WordStarts(c, p)
      decreases |c| - p
    {
      p, count := OneWord(buf, argv, count, p, c);
    }
    argv[count] := -1;
  }

  method OneWord(buf: array<char>, argv: array<int>, count: nat, p: nat, ghost c: string)
    returns (p': nat, count': nat)
    requires Cutting(buf, c, p) && IsText(c) && p < |c| && (p == 0 || IsSpace(c[p - 1]))
    requires argv.Length >= |c| / 2 + 2
    requires count < argv.Length && argv[..count] == WordStarts(c, p)
    modifies buf, argv
    ensures p < p' <= |c| && Cutting(buf, c, p') && (p' == |c| || IsSpace(c[p' - 1]))
    ensures count' < argv.Length && argv[..count'] == WordStarts(c, p')
  {
    var t := SkipSpaces(buf, |c|, p);
    NoStarts(c, p, t);
    count' := count;
    if buf[t] != '\0' {
      StartsBound(c, t);
      argv[count] := t;
      count' := count + 1;
      p' := EndWord(buf, t, c);
      assert WordStarts(c, t + 1) == WordStarts(c, t) + [t];
    } else {
      p' := t;
    }
  }

  // Over the rest of the word, and a NUL behind it.
  method EndWord(buf: array<char>, t: nat, ghost c: string) returns (p: nat)
    requires Cutting(buf, c, t) && IsText(c) && Starts(c, t)
    modifies buf
    ensures t < p <= |c| && Cutting(buf, c, p) && (p == |c| || IsSpace(c[p - 1]))
    ensures WordStarts(c, p) == WordStarts(c, t + 1)
  {
    p := t;
    while buf[p] != '\0' && !IsSpace(buf[p])
      modifies {}
      invariant t <= p <= |c| && forall j :: t <= j < p ==> !IsSpace(c[j])
      decreases |c| - p
    {
      p := p + 1;
    }
    if buf[p] != '\0' {
      buf[p] := '\0';
      p := p + 1;
    }
    NoStarts(c, t + 1, p);
  }

  // savepvn: length characters from start on, and a NUL.
  method Saved(a: array<char>, start: nat, length: nat) returns (r: array<char>)
    requires start + length <= a.Length
    ensures fresh(r) && r.Length == length + 1
    ensures r[..length] == a[start..start + length] && r[length] == '\0'
  {
    r := new char[length + 1](i => '\0');
    forall i | 0 <= i < length {
      r[i] := a[start + i];
    }
  }

  // A NUL-terminated string lies in buf from o on.
  ghost predicate IsCString(buf: array<char>, o: int, w: string)
    reads buf
  {
    && 0 <= o && o + |w| < buf.Length && IsText(w)
    && buf[o..o + |w|] == w && buf[o + |w|] == '\0'
  }

  function Word(c: string, i: nat): string
    requires i <= |c|
  {
    c[i..RunEnd(c, i)]
  }

  // The words of c, in order.
  function Words(c: string, n: nat): (ws: seq<string>)
    requires n <= |c|
    ensures |ws| == |WordStarts(c, n)|
  {
    if n == 0 then [] else Words(c, n - 1) + if Starts(c, n - 1) then [Word(c, n - 1)] else []
  }

  // argv holds pointers to ws, and a null pointer after them.
  ghost predicate IsArgv(argv: array<int>, buf: array<char>, ws: seq<string>)
    reads argv, buf
  {
    && |ws| < argv.Length && argv[|ws|] == -1
    && forall k :: 0 <= k < |ws| ==> IsCString(buf, argv[k], ws[k])
  }

  // do_exec3 up to the system call: the shell, or the words to run.
  method DoExec(cmd: array<char>, n: nat, dupWorks: bool)
    returns (start: nat, plan: Plan, argv: array<int>, buf: array<char>)
    requires n < cmd.Length && cmd[n] == '\0' && IsText(cmd[..n])
    modifies cmd
    ensures start <= n && (forall j :: 0 <= j < start ==> IsSpace(old(cmd[j])))
    ensures start < n ==> !IsSpace(old(cmd[start]))
    ensures plan == PlanFor(old(cmd[start..n]), dupWorks)
    ensures plan.Shell? ==> cmd[..] == old(cmd[..])
    ensures plan.Direct? ==> plan.cut <= plan.end <= n - start && argv.Length == plan.end / 2 + 2
    ensures plan.Direct? ==>
      var c := old(cmd[start..start + plan.cut]);
      IsArgv(argv, buf, Words(c, |c|))
  {
    start := SkipSpaces(cmd, n, 0);
    argv, buf := new int[0], new char[0];
    var gizmo := Gizmo(cmd, n, start);
    if gizmo {
      return start, Shell, argv, buf;
    }
    plan := ScanMeta(cmd, n, start, dupWorks);
    if plan.Direct? {
      assert old(cmd[start..start + plan.cut]) == old(cmd[..])[start..start + plan.cut];
      argv, buf := SplitCommand(cmd, start, plan.end, plan.cut, old(cmd[..]), n);
    }
  }

  // The copy of the command and the array of pointers into it.
  method SplitCommand(cmd: array<char>, start: nat, end: nat, ghost cut: nat, ghost was: string, ghost n: nat)
    returns (argv: array<int>, buf: array<char>)
    requires cut <= end && start + end <= n < |was| && IsText(was[..n])
    requires cmd[..] == was[start + cut := '\0']
    ensures argv.Length == end / 2 + 2
    ensures IsArgv(argv, buf, Words(was[start..start + cut], cut))
  {
    ghost var c := was[start..start + cut];
    argv := new int[end / 2 + 2];
    buf := Saved(cmd, start, end);
    CutCopy(cmd[..], was, start, cut, n);
    assert forall j :: 0 <= j < end ==> buf[j] == buf[..end][j] == cmd[start + j];
    var count := Split(buf, argv, c);
    SplitsIntoWords(buf, argv, c, cut);
  }

  lemma CutCopy(now: string, was: string, start: nat, cut: nat, n: nat)
    requires start + cut <= n < |was| && IsText(was[..n]) && now == was[start + cut := '\0']
    ensures var c := was[start..start + cut];
      IsText(c) && now[start + cut] == '\0' && forall j :: 0 <= j < cut ==> now[start + j] == c[j]
  {
    var c := was[start..start + cut];
    forall j | 0 <= j < cut ensures c[j] != '\0' {
      assert was[..n][start + j] == c[j];
    }
  }

  // Cut at the white space behind them, the words are C strings.
  lemma {:induction false} SplitsIntoWords(buf: array<char>, argv: array<int>, c: string, n: nat)
    requires n <= |c| && Cutting(buf, c, |c|) && IsText(c)
    requires |WordStarts(c, n)| <= argv.Length && argv[..|WordStarts(c, n)|] == WordStarts(c, n)
    ensures forall k :: 0 <= k < |Words(c, n)| ==> IsCString(buf, argv[k], Words(c, n)[k])
  {
    if n > 0 {
      SplitsIntoWords(buf, argv, c, n - 1);
      if Starts(c, n - 1) {
        var i := n - 1;
        var e := RunEnd(c, i);
        assert buf[i..e] == c[i..e];
      }
    }
  }

  // ---- what the plan and the words are ----

  // The first metacharacter from i on.
  function FirstMeta(c: string, i: nat): (f: nat)
    requires i <= |c|
    ensures i <= f <= |c|
    ensures forall j :: i <= j < f ==> !IsMeta(c[j])
    ensures f < |c| ==> IsMeta(c[f])
    decreases |c| - i
  {
    if i < |c| && !IsMeta(c[i]) then FirstMeta(c, i + 1) else i
  }

  lemma {:induction false} ScanStopsAtMeta(c: string, i: nat, dupWorks: bool)
    requires i <= |c|
    ensures var f := FirstMeta(c, i);
      Scan(c, i, dupWorks) ==
        if f == |c| || (c[f] == '\n' && f + 1 == |c|) then Direct(f, f)
        else if Redirects(c, f) && dupWorks then Direct(f, f - 2)
        else Shell
    decreases |c| - i
  {
    if i < |c| && !IsMeta(c[i]) {
      ScanStopsAtMeta(c, i + 1, dupWorks);
    }
  }

  // A command runs without a shell exactly when it neither sources, execs nor
  // assigns, and its first metacharacter, if any, is a newline at the very end or
  // the > of a final 2>&1 that dup2 has just carried out.
  lemma DirectWhen(c: string, dupWorks: bool)
    ensures var f := FirstMeta(c, 0);
      PlanFor(c, dupWorks).Direct? <==>
        && !SourcesOrExecs(c) && !Assigns(c)
        && (f == |c| || (c[f] == '\n' && f + 1 == |c|) || (Redirects(c, f) && dupWorks))
  {
    ScanStopsAtMeta(c, 0, dupWorks);
  }

  // No word holds a metacharacter or white space, and none is empty.
  lemma {:induction false} WordsAreClean(c: string, n: nat, k: nat, j: nat)
    requires n <= |c| && k < |Words(c, n)| && j < |Words(c, n)[k]|
    requires forall i :: 0 <= i < |c| ==> !IsMeta(c[i])
    ensures !IsMeta(Words(c, n)[k][j]) && !IsSpace(Words(c, n)[k][j])
  {
    if k < |Words(c, n - 1)| {
      WordsAreClean(c, n - 1, k, j);
    }
  }

  lemma DirectWordsAreClean(c: string, dupWorks: bool, k: nat, j: nat)
    requires PlanFor(c, dupWorks).Direct?
    ensures PlanFor(c, dupWorks).cut <= PlanFor(c, dupWorks).end <= |c|
    ensures var t := c[..PlanFor(c, dupWorks).cut];
      k < |Words(t, |t|)| ==>
        var w := Words(t, |t|)[k];
        |w| > 0 && (j < |w| ==> !IsMeta(w[j]) && !IsSpace(w[j]))
  {
    ScanStopsAtMeta(c, 0, dupWorks);
    var cut := PlanFor(c, dupWorks).cut;
    var t := c[..cut];
    if k < |Words(t, cut)| {
      WordNotEmpty(t, cut, k);
      if j < |Words(t, cut)[k]| {
        WordsAreClean(t, cut, k, j);
      }
    }
  }

  lemma {:induction false} WordNotEmpty(c: string, n: nat, k: nat)
    requires n <= |c| && k < |Words(c, n)|
    ensures |Words(c, n)[k]| > 0
  {
    if k < |Words(c, n - 1)| {
      WordNotEmpty(c, n - 1, k);
    }
  }

  // The words and the null pointer fit in the array.
  lemma ArgvFits(c: string, end: nat)
    requires |c| <= end
    ensures |Words(c, |c|)| + 1 <= end / 2 + 2
  {
    StartsBound(c, |c|);
  }

  function Joined(ws: seq<string>): string {
    if |ws| == 0 then "" else Joined(ws[..|ws| - 1]) + ws[|ws| - 1]
  }

  function NonSpaces(c: string, n: nat): string
    requires n <= |c|
  {
    if n == 0 then "" else NonSpaces(c, n - 1) + if IsSpace(c[n - 1]) then "" else [c[n - 1]]
  }

  lemma {:induction false} RunIsNonSpace(c: string, m: nat, n: nat)
    requires m <= n <= |c| && forall j :: m <= j < n ==> !IsSpace(c[j])
    ensures NonSpaces(c, n) == NonSpaces(c, m) + c[m..n]
  {
    if m < n {
      RunIsNonSpace(c, m, n - 1);
      assert c[m..n] == c[m..n - 1] + [c[n - 1]];
    }
  }

  lemma JoinedNext(ws: seq<string>, w: string)
    ensures Joined(ws + [w]) == Joined(ws) + w
  {
    assert (ws + [w])[..|ws|] == ws;
  }

  // Splitting loses nothing but white space.
  lemma {:induction false} NothingLost(c: string, n: nat)
    requires n <= |c|
    ensures Joined(Words(c, n)) ==
      NonSpaces(c, if n > 0 && !IsSpace(c[n - 1]) then RunEnd(c, n) else n)
  {
    if n > 0 {
      NothingLost(c, n - 1);
      if Starts(c, n - 1) {
        RunIsNonSpace(c, n - 1, RunEnd(c, n - 1));
        JoinedNext(Words(c, n - 1), Word(c, n - 1));
      } else {
        assert Words(c, n) == Words(c, n - 1);
      }
    }
  }

  // ---- in terms of the characters alone ----

  const METAS := "$&*(){}[]'\";\\|?<>~`\n"
  const SPACES := " \t\n\r\U{0C}"

  lemma CharClasses(c: char)
    ensures IsMeta(c) <==> c in METAS
    ensures IsSpace(c) <==> c in SPACES
    ensures IsAlnum(c) <==> c == '_' || '0' <= c <= '9' || 'A' <= c <= 'Z' || 'a' <= c <= 'z'
  {
  }

  // ". file", "exec command" or "name=value"
  ghost predicate AsksForShell(c: string) {
    || (|c| > 1 && c[0] == '.' && IsSpace(c[1]))
    || (|c| > 4 && c[..4] == "exec" && IsSpace(c[4]))
    || exists e :: 0 <= e < |c| && c[e] == '=' && forall j :: 0 <= j < e ==> IsAlnum(c[j])
  }

  lemma AsksIs(c: string)
    ensures AsksForShell(c) <==> SourcesOrExecs(c) || Assigns(c)
  {
    SourcesIs(c);
    AssignsIs(c);
  }

  lemma SourcesIs(c: string)
    ensures SourcesOrExecs(c) <==>
      (|c| > 1 && c[0] == '.' && IsSpace(c[1])) || (|c| > 4 && c[..4] == "exec" && IsSpace(c[4]))
  {
    if |c| > 4 && c[..4] == "exec" {
      assert "exec" <= c;
    }
  }

  lemma AssignsIs(c: string)
    ensures Assigns(c) <==> exists e :: 0 <= e < |c| && c[e] == '=' && forall j :: 0 <= j < e ==> IsAlnum(c[j])
  {
    NameIs(c, 0);
    if e :| 0 <= e < |c| && c[e] == '=' && forall j :: 0 <= j < e ==> IsAlnum(c[j]) {
      assert !IsAlnum(c[e]) && NameEnd(c, 0) == e;
    }
  }

  lemma {:induction false} NameIs(c: string, i: nat)
    requires i <= |c|
    ensures forall j :: i <= j < NameEnd(c, i) ==> IsAlnum(c[j])
    ensures NameEnd(c, i) < |c| ==> !IsAlnum(c[NameEnd(c, i)])
    decreases |c| - i
  {
    if i < |c| && IsAlnum(c[i]) {
      NameIs(c, i + 1);
    }
  }

  // The command as far as cut has no metacharacter, and what is behind it is nothing
  // or a newline.
  predicate RunsWhole(c: string, end: nat) {
    && end <= |c|
    && (forall j :: 0 <= j < end ==> !IsMeta(c[j]))
    && (end == |c| || (end + 1 == |c| && c[end] == '\n'))
  }

  // What is behind cut is the redirection to standard output, the > at end.
  predicate RunsRedirected(c: string, end: nat, cut: nat) {
    && cut + 2 == end && end + 3 <= |c|
    && (forall j :: 0 <= j < end ==> !IsMeta(c[j]))
    && IsSpace(c[cut]) && c[cut + 1] == '2' && c[end] == '>' && c[end + 1] == '&' && c[end + 2] == '1'
    && forall j :: end + 3 <= j < |c| ==> IsSpace(c[j])
  }

  // When a command runs without a shell, and what of it then runs.
  lemma DirectIs(c: string, dupWorks: bool, end: nat, cut: nat)
    ensures PlanFor(c, dupWorks) == Direct(end, cut) <==>
      && !AsksForShell(c)
      && ((cut == end && RunsWhole(c, end)) || (dupWorks && RunsRedirected(c, end, cut)))
  {
    AsksIs(c);
    ScanStopsAtMeta(c, 0, dupWorks);
    var f := FirstMeta(c, 0);
    if cut == end && RunsWhole(c, end) {
      assert f == end;
    } else if RunsRedirected(c, end, cut) {
      assert IsMeta('>') && f == end;
    }
  }

  // A pipe, a list, a substitution, a quote and the like need the shell wherever
  // they stand.
  lemma MetaNeedsShell(c: string, dupWorks: bool, i: nat)
    requires i < |c| && IsMeta(c[i]) && c[i] !in {'\n', '>', '&'}
    ensures PlanFor(c, dupWorks) == Shell
  {
    if PlanFor(c, dupWorks).Direct? {
      var end, cut := PlanFor(c, dupWorks).end, PlanFor(c, dupWorks).cut;
      DirectIs(c, dupWorks, end, cut);
    }
  }

  // ---- the words of a command, built up ----

  lemma RunEndIs(c: string, i: nat, e: nat)
    requires i <= e <= |c| && forall j :: i <= j < e ==> !IsSpace(c[j])
    requires e == |c| || IsSpace(c[e])
    ensures RunEnd(c, i) == e
  {
  }

  // The words that start in c are those of a longer t, if none of them goes on in it.
  lemma {:induction false} WordsPrefix(c: string, t: string, n: nat)
    requires n <= |c| <= |t| && forall j :: 0 <= j < |c| ==> t[j] == c[j]
    requires c == "" || IsSpace(c[|c| - 1]) || |c| == |t| || IsSpace(t[|c|])
    ensures Words(t, n) == Words(c, n)
  {
    if n > 0 {
      WordsPrefix(c, t, n - 1);
      assert Starts(t, n - 1) == Starts(c, n - 1);
      if Starts(c, n - 1) {
        SameWord(c, t, n - 1, RunEnd(c, n - 1));
      }
    }
  }

  lemma SameWord(c: string, t: string, i: nat, e: nat)
    requires i <= e <= |c| <= |t| && forall j :: 0 <= j < |c| ==> t[j] == c[j]
    requires e == RunEnd(c, i) && (e == |t| || IsSpace(t[e]))
    ensures Word(t, i) == Word(c, i)
  {
    RunEndIs(t, i, e);
  }

  lemma {:induction false} NoMoreWords(c: string, m: nat, n: nat)
    requires m <= n <= |c| && forall j :: m <= j < n ==> !Starts(c, j)
    ensures Words(c, n) == Words(c, m)
  {
    if m < n {
      NoMoreWords(c, m, n - 1);
    }
  }

  // White space at the end adds no word.
  lemma WordsBlank(c: string, b: char)
    requires IsSpace(b)
    ensures Words(c + [b], |c| + 1) == Words(c, |c|)
  {
    var t := c + [b];
    WordsPrefix(c, t, |c|);
    NoMoreWords(t, |c|, |t|);
  }

  // A run of other characters, at the start or behind white space, is one more.
  lemma WordsNext(c: string, w: string)
    requires c == "" || IsSpace(c[|c| - 1])
    requires w != "" && forall j :: 0 <= j < |w| ==> !IsSpace(w[j])
    ensures Words(c + w, |c + w|) == Words(c, |c|) + [w]
  {
    BehindIs(c, w, c + w);
    WordsBehind(c, w, c + w);
  }

  lemma BehindIs(c: string, w: string, t: string)
    requires t == c + w
    ensures |t| == |c| + |w| && t[|c|..|t|] == w
    ensures forall j :: 0 <= j < |c| ==> t[j] == c[j]
    ensures forall j :: |c| <= j < |t| ==> t[j] == w[j - |c|]
  {
  }

  lemma WordsBehind(c: string, w: string, t: string)
    requires c == "" || IsSpace(c[|c| - 1])
    requires |c| < |t| && t[|c|..|t|] == w && forall j :: 0 <= j < |c| ==> t[j] == c[j]
    requires forall j :: |c| <= j < |t| ==> !IsSpace(t[j])
    ensures Words(t, |t|) == Words(c, |c|) + [w]
  {
    WordsPrefix(c, t, |c|);
    LastWord(t, |c|, w);
  }

  lemma LastWord(t: string, n: nat, w: string)
    requires n < |t| && (n == 0 || IsSpace(t[n - 1])) && t[n..|t|] == w
    requires forall j :: n <= j < |t| ==> !IsSpace(t[j])
    ensures Words(t, |t|) == Words(t, n) + [w]
  {
    OneWordOn(t, n, w);
    NoMoreWords(t, n + 1, |t|);
  }

  lemma OneWordOn(t: string, n: nat, w: string)
    requires n < |t| && (n == 0 || IsSpace(t[n - 1])) && t[n..|t|] == w
    requires forall j :: n <= j < |t| ==> !IsSpace(t[j])
    ensures Words(t, n + 1) == Words(t, n) + [w]
  {
    RunEndIs(t, n, |t|);
    assert Starts(t, n);
  }
}
