/** A leading `WITH` clause, lifted off the front of a statement. */
module LeadingCte {
  import opened Wrappers
  import Text

  // ----- Text outside quotes -----

  predicate IsQuote(c: char) { c == '\'' || c == '"' }

  /** The quote a scan is inside of once it has read `s`. */
  function After(quoted: Option<char>, s: string): Option<char>
    decreases |s|
  {
    if s == "" then quoted
    else if quoted.Some? then After(if s[0] == quoted.value then None else quoted, s[1..])
    else After(if IsQuote(s[0]) then Some(s[0]) else None, s[1..])
  }

  /** What of `s` stands outside quotes. */
  function Bare(quoted: Option<char>, s: string): string
    decreases |s|
  {
    if s == "" then ""
    else if quoted.Some? then Bare(if s[0] == quoted.value then None else quoted, s[1..])
    else if IsQuote(s[0]) then Bare(Some(s[0]), s[1..])
    else [s[0]] + Bare(None, s[1..])
  }

  function Count(s: string, c: char): nat {
    if s == "" then 0 else (if s[0] == c then 1 else 0) + Count(s[1..], c)
  }

  /** Parentheses opened and not closed, outside quotes. */
  function Level(quoted: Option<char>, s: string): int {
    Count(Bare(quoted, s), '(') - Count(Bare(quoted, s), ')')
  }

  lemma {:induction false} AfterSum(quoted: Option<char>, a: string, b: string)
    ensures After(quoted, a + b) == After(After(quoted, a), b)
    ensures Bare(quoted, a + b) == Bare(quoted, a) + Bare(After(quoted, a), b)
    decreases |a|
  {
    if a == "" {
      assert a + b == b;
    } else {
      assert (a + b)[1..] == a[1..] + b;
      var next := if quoted.Some? then (if a[0] == quoted.value then None else quoted)
                  else if IsQuote(a[0]) then Some(a[0]) else None;
      AfterSum(next, a[1..], b);
    }
  }

  lemma {:induction false} CountSum(a: string, b: string, c: char)
    ensures Count(a + b, c) == Count(a, c) + Count(b, c)
  {
    if a == "" {
      assert a + b == b;
    } else {
      assert (a + b)[1..] == a[1..] + b;
      CountSum(a[1..], b, c);
    }
  }

  lemma {:induction false} LevelSum(quoted: Option<char>, a: string, b: string)
    ensures Level(quoted, a + b) == Level(quoted, a) + Level(After(quoted, a), b)
  {
    AfterSum(quoted, a, b);
    CountSum(Bare(quoted, a), Bare(After(quoted, a), b), '(');
    CountSum(Bare(quoted, a), Bare(After(quoted, a), b), ')');
  }

  /** One more character moves the level by at most one. */
  lemma {:induction false} LevelStep(s: string, n: nat)
    requires n < |s|
    ensures var quoted := After(None, s[..n]);
      && After(None, s[..n + 1])
        == (if quoted.Some? then (if s[n] == quoted.value then None else quoted)
            else if IsQuote(s[n]) then Some(s[n]) else None)
      && Level(None, s[..n + 1]) == Level(None, s[..n])
        + (if quoted.Some? then 0 else if s[n] == '(' then 1 else if s[n] == ')' then -1 else 0)
  {
    assert s[..n + 1] == s[..n] + [s[n]];
    AfterSum(None, s[..n], [s[n]]);
    LevelSum(None, s[..n], [s[n]]);
    OneCharacter(After(None, s[..n]), s[n]);
  }

  lemma OneCharacter(quoted: Option<char>, c: char)
    ensures After(quoted, [c])
      == if quoted.Some? then (if c == quoted.value then None else quoted) else if IsQuote(c) then Some(c) else None
    ensures Level(quoted, [c]) == if quoted.Some? then 0 else if c == '(' then 1 else if c == ')' then -1 else 0
  {
    assert [c][1..] == "";
    assert Bare(quoted, [c]) == if quoted.Some? || IsQuote(c) then "" else [c];
    assert Count([c], '(') == if c == '(' then 1 else 0;
    assert Count([c], ')') == if c == ')' then 1 else 0;
  }

  // ----- Where the clause ends -----

  const WITH := "WITH "

  /** The first `(` after the keyword. */
  function FirstParen(sql: string): (open: Option<nat>)
    ensures open.Some? ==> |WITH| <= open.value < |sql| && sql[open.value] == '('
    ensures open.Some? ==> WITH <= sql && '(' !in sql[|WITH|..open.value]
    ensures open.None? ==> !(WITH <= sql) || '(' !in sql[|WITH|..]
  {
    if !(WITH <= sql) then None
    else
      var i := Find(sql[|WITH|..], '(');
      if i.Some? then Some(|WITH| + i.value) else None
  }

  function Find(s: string, c: char): (i: Option<nat>)
    ensures i.Some? ==> i.value < |s| && s[i.value] == c && c !in s[..i.value]
    ensures i.None? ==> c !in s
  {
    if s == "" then None
    else if s[0] == c then Some(0)
    else
      var rest := Find(s[1..], c);
      if rest.Some? then Some(rest.value + 1) else None
  }

  /** The first `end` characters are the shortest prefix that balances. */
  predicate ClosesAt(text: string, end: int) {
    0 < end <= |text| && Level(None, text[..end]) == 0 && forall k :: 0 < k < end ==> Level(None, text[..k]) != 0
  }

  /** Until it balances, a text that opens with a parenthesis stays above zero. */
  lemma {:induction false} StaysOpen(text: string, end: nat)
    requires text != "" && text[0] == '(' && 0 < end <= |text|
    requires forall k :: 0 < k < end ==> Level(None, text[..k]) != 0
    ensures forall k :: 0 < k < end ==> Level(None, text[..k]) > 0
    ensures Level(None, text[..end]) >= 0
  {
    assert text[..0] == "";
    if end == 1 {
      LevelStep(text, 0);
    } else {
      StaysOpen(text, end - 1);
      LevelStep(text, end - 1);
    }
  }

  /** Where the shortest balanced prefix ends, if there is one. */
  ghost function EndOf(text: string): (end: Option<nat>)
    ensures end.Some? ==> ClosesAt(text, end.value)
    ensures end.None? ==> forall k :: !ClosesAt(text, k)
  {
    if exists k :: ClosesAt(text, k) then (var k :| ClosesAt(text, k); Some(k)) else None
  }

  lemma ClosesOnce(text: string, end: nat)
    requires ClosesAt(text, end)
    ensures EndOf(text) == Some(end)
  {
    var other := EndOf(text).value;
    if other < end {
      assert false;
    }
  }

  /** The scan from the first parenthesis. The depth is a count: it never has to
      go below zero. */
  method Close(text: string) returns (end: Option<nat>)
    requires text != "" && text[0] == '('
    ensures end == EndOf(text)
  {
    var depth: nat := 0;
    var quoted: Option<char> := None;
    assert text[..0] == "";
    for i := 0 to |text|
      invariant quoted == After(None, text[..i])
      invariant depth == Level(None, text[..i])
      invariant forall k :: 0 < k <= i ==> Level(None, text[..k]) != 0
    {
      LevelStep(text, i);
      StaysOpen(text, i + 1);
      var ch := text[i];
      if quoted.Some? {
        if ch == quoted.value { quoted := None; }
      } else if IsQuote(ch) {
        quoted := Some(ch);
      } else if ch == '(' {
        depth := depth + 1;
      } else if ch == ')' {
        depth := depth - 1;
        if depth == 0 {
          ClosesOnce(text, i + 1);
          return Some(i + 1);
        }
      }
    }
    return None;
  }

  /** The statement is cut after the clause; or left alone where none ends. */
  predicate Cut(sql: string, open: nat, end: Option<nat>, clause: string, body: string) {
    if end.None? then clause == "" && body == sql
    else open + end.value <= |sql| && clause == sql[..open + end.value] + " " && body == Text.TrimStart(sql[open + end.value..])
  }

  ghost predicate Splits(sql: string, open: nat, clause: string, body: string)
    requires open <= |sql|
  {
    Cut(sql, open, EndOf(sql[open..]), clause, body)
  }

  method SplitLeadingCte(sql: string) returns (clause: string, body: string)
    ensures FirstParen(sql).None? ==> clause == "" && body == sql
    ensures FirstParen(sql).Some? ==> Splits(sql, FirstParen(sql).value, clause, body)
  {
    var open := FirstParen(sql);
    if open.None? { return "", sql; }
    var end := Close(sql[open.value..]);
    clause, body := CutAt(sql, open.value, end);
  }

  method CutAt(sql: string, open: nat, end: Option<nat>) returns (clause: string, body: string)
    requires end.Some? ==> open + end.value <= |sql|
    ensures Cut(sql, open, end, clause, body)
  {
    if end.None? { return "", sql; }
    return sql[..open + end.value] + " ", Text.TrimStart(sql[open + end.value..]);
  }

  // ----- The statement rebuilt -----

  /** The clause, less its space, then white space, then the body, is the statement;
      and the body starts with no white space. */
  lemma {:induction false} Rebuilds(sql: string, open: nat, end: nat, clause: string, body: string)
    requires Cut(sql, open, Some(end), clause, body)
    ensures Rebuilt(sql, clause, body)
  {
    var m := open + end;
    TrimmedRest(sql, m, body);
    PiecesJoin(sql, m, clause, body);
  }

  predicate Rebuilt(sql: string, clause: string, body: string) {
    && clause != "" && |clause| - 1 + |body| <= |sql|
    && sql == clause[..|clause| - 1] + sql[|clause| - 1..|sql| - |body|] + body
    && (forall i :: |clause| - 1 <= i < |sql| - |body| ==> Text.IsSpace(sql[i]))
    && (body == "" || !Text.IsSpace(body[0]))
  }

  lemma {:induction false} PiecesJoin(sql: string, m: nat, clause: string, body: string)
    requires m + |body| <= |sql| && clause == sql[..m] + " " && body == sql[|sql| - |body|..]
    ensures |clause| == m + 1 && clause[..m] == sql[..m]
    ensures sql == clause[..|clause| - 1] + sql[|clause| - 1..|sql| - |body|] + body
  {
    assert clause[..m] == sql[..m];
    assert sql == sql[..m] + sql[m..|sql| - |body|] + sql[|sql| - |body|..];
  }

  lemma {:induction false} TrimmedRest(sql: string, m: nat, body: string)
    requires m <= |sql| && body == Text.TrimStart(sql[m..])
    ensures m + |body| <= |sql| && body == sql[|sql| - |body|..]
    ensures forall i :: m <= i < |sql| - |body| ==> Text.IsSpace(sql[i])
    ensures body == "" || !Text.IsSpace(body[0])
  {
    var rest := sql[m..];
    assert rest[|rest| - |body|..] == sql[|sql| - |body|..];
    forall i | m <= i < |sql| - |body| ensures Text.IsSpace(sql[i]) {
      assert rest[i - m] == sql[i];
    }
  }

  /** The clause ends with the parenthesis that balances it, outside quotes. */
  lemma {:induction false} EndsWithParen(text: string, end: nat)
    requires text != "" && text[0] == '(' && ClosesAt(text, end)
    ensures text[end - 1] == ')' && After(None, text[..end]).None?
  {
    assert text[..0] == "";
    StaysOpen(text, end);
    LevelStep(text, end - 1);
  }

  // ----- Against reading the whole statement -----

  /** The first `end` characters of a statement are its shortest prefix that holds
      a parenthesis outside quotes and balances. */
  predicate Balances(sql: string, end: int) {
    0 <= end <= |sql| && '(' in Bare(None, sql[..end]) && Level(None, sql[..end]) == 0
  }

  ghost predicate FirstBalance(sql: string, end: int) {
    Balances(sql, end) && forall k :: k < end ==> !Balances(sql, k)
  }

  /** The text before the first parenthesis leaves no quote open and closes no
      parenthesis. */
  predicate PlainHead(head: string) { After(None, head).None? && ')' !in Bare(None, head) }

  lemma {:induction false} NoCount(s: string, c: char)
    ensures Count(s, c) == 0 <==> c !in s
  {
    if s != "" {
      NoCount(s[1..], c);
      assert s == [s[0]] + s[1..];
    }
  }

  lemma {:induction false} BareIsPart(quoted: Option<char>, s: string, c: char)
    requires c !in s
    ensures c !in Bare(quoted, s)
    decreases |s|
  {
    if s != "" {
      assert forall i :: 0 <= i < |s[1..]| ==> s[1..][i] == s[i + 1];
      var next := if quoted.Some? then (if s[0] == quoted.value then None else quoted)
                  else if IsQuote(s[0]) then Some(s[0]) else None;
      BareIsPart(next, s[1..], c);
    }
  }

  /** Past a plain head, the statement balances where its tail does. */
  lemma {:induction false} BalancesPast(head: string, text: string, end: nat)
    requires '(' !in head && PlainHead(head) && text != "" && text[0] == '(' && end <= |text|
    ensures Balances(head + text, |head| + end) <==> (0 < end && Level(None, text[..end]) == 0)
  {
    assert (head + text)[..|head| + end] == head + text[..end];
    AfterSum(None, head, text[..end]);
    LevelSum(None, head, text[..end]);
    BareIsPart(None, head, '(');
    NoCount(Bare(None, head), '(');
    NoCount(Bare(None, head), ')');
    if end == 0 {
      assert text[..0] == "";
    } else {
      assert text[..end][0] == '(';
      assert Bare(None, text[..end])[0] == '(';
    }
  }

  lemma {:induction false} NotInHead(head: string, text: string, end: int)
    requires '(' !in head && end <= |head|
    ensures !Balances(head + text, end)
  {
    if 0 <= end {
      assert (head + text)[..end] == head[..end];
      BareIsPart(None, head[..end], '(');
    }
  }

  lemma {:induction false} PlainHeadAgrees(head: string, text: string, end: int)
    requires '(' !in head && PlainHead(head) && text != "" && text[0] == '('
    ensures ClosesAt(text, end) <==> FirstBalance(head + text, |head| + end)
  {
    forall k | k <= |head| ensures !Balances(head + text, k) {
      NotInHead(head, text, k);
    }
    forall k | 0 <= k <= |text|
      ensures Balances(head + text, |head| + k) <==> (0 < k && Level(None, text[..k]) == 0)
    {
      BalancesPast(head, text, k);
    }
    if ClosesAt(text, end) {
      forall k | k < |head| + end ensures !Balances(head + text, k) {
        if k > |head| {
          assert Level(None, text[..k - |head|]) != 0;
          assert k == |head| + (k - |head|);
        }
      }
    }
    if FirstBalance(head + text, |head| + end) {
      forall k | 0 < k < end ensures Level(None, text[..k]) != 0 {
        assert !Balances(head + text, |head| + k);
      }
    }
  }

  /** A head that is not plain is read wrongly with the shortest tail there is. */
  lemma {:induction false} OtherHeadDiffers(head: string)
    requires '(' !in head && !PlainHead(head)
    ensures ClosesAt("()", 2) && !FirstBalance(head + "()", |head| + 2)
  {
    LevelStep("()", 0);
    LevelStep("()", 1);
    assert "()"[..0] == "" && "()"[..2] == "()";
    assert (head + "()")[..|head| + 2] == head + "()";
    AfterSum(None, head, "()");
    LevelSum(None, head, "()");
    BareIsPart(None, head, '(');
    NoCount(Bare(None, head), '(');
    NoCount(Bare(None, head), ')');
    if After(None, head).Some? {
      OpenQuote(None, head);
      QuotedPair(After(None, head));
    } else {
      assert Level(None, head) < 0;
    }
  }

  lemma {:induction false} OpenQuote(quoted: Option<char>, s: string)
    requires quoted.Some? ==> IsQuote(quoted.value)
    ensures After(quoted, s).Some? ==> IsQuote(After(quoted, s).value)
    decreases |s|
  {
    if s != "" {
      var next := if quoted.Some? then (if s[0] == quoted.value then None else quoted)
                  else if IsQuote(s[0]) then Some(s[0]) else None;
      OpenQuote(next, s[1..]);
    }
  }

  lemma QuotedPair(quoted: Option<char>)
    requires quoted.Some? && IsQuote(quoted.value)
    ensures Bare(quoted, "()") == ""
  {
    assert "()"[1..] == ")" && ")"[1..] == "";
  }

  /** For every tail the clause is the shortest balanced prefix of the whole
      statement if and only if the head is plain. A name in quotes with a
      parenthesis in it is not. */
  lemma {:induction false} HeadsExactly(head: string)
    requires '(' !in head
    ensures (forall tail: string, end: int :: ClosesAt("(" + tail, end) <==> FirstBalance(head + ("(" + tail), |head| + end))
      <==> PlainHead(head)
  {
    if PlainHead(head) {
      forall tail: string, end: int
        ensures ClosesAt("(" + tail, end) <==> FirstBalance(head + ("(" + tail), |head| + end)
      {
        PlainHeadAgrees(head, "(" + tail, end);
      }
    } else {
      OtherHeadDiffers(head);
      assert "(" + ")" == "()";
    }
  }

  // ----- At the keyword itself -----

  /** The scan starts at the first parenthesis after a leading `WITH `, and nowhere
      without one. */
  lemma {:induction false} ScanStarts(head: string, tail: string, other: string)
    requires '(' !in head
    ensures FirstParen("WITH " + head + "(" + tail) == Some(5 + |head|)
    ensures FirstParen("WITH " + head).None?
    ensures !("WITH " <= other) ==> FirstParen(other).None?
  {
    var sql := "WITH " + head + "(" + tail;
    assert sql[5..] == head + "(" + tail && "WITH " <= sql;
    FindPast(head, "(" + tail, '(');
    assert head + ("(" + tail) == head + "(" + tail;
    assert ("WITH " + head)[5..] == head;
  }

  lemma {:induction false} FindPast(head: string, rest: string, c: char)
    requires c !in head && rest != "" && rest[0] == c
    ensures Find(head + rest, c) == Some(|head|)
  {
    if head == "" {
      assert head + rest == rest;
    } else {
      assert (head + rest)[1..] == head[1..] + rest;
      FindPast(head[1..], rest, c);
    }
  }

  /** Text between single quotes, and between double ones, is hidden; text without
      either stands. */
  lemma {:induction false} QuotesHide(s: string)
    ensures '\'' !in s ==> Bare(None, "'" + s + "'") == "" && After(None, "'" + s + "'").None?
    ensures '"' !in s ==> Bare(None, "\"" + s + "\"") == "" && After(None, "\"" + s + "\"").None?
    ensures '\'' !in s && '"' !in s ==> Bare(None, s) == s
  {
    if '\'' !in s { Hidden(s, '\''); }
    if '"' !in s { Hidden(s, '"'); }
    if '\'' !in s && '"' !in s { Stands(s); }
  }

  lemma {:induction false} Hidden(s: string, quote: char)
    requires (quote == '\'' || quote == '"') && quote !in s
    ensures Bare(None, [quote] + s + [quote]) == "" && After(None, [quote] + s + [quote]).None?
  {
    var all := [quote] + s + [quote];
    assert all[0] == quote && all[1..] == s + [quote];
    Inside(s, quote);
  }

  lemma {:induction false} Inside(s: string, quote: char)
    requires quote !in s
    ensures Bare(Some(quote), s + [quote]) == "" && After(Some(quote), s + [quote]).None?
  {
    var all := s + [quote];
    if s == "" {
      assert all == [quote] && all[1..] == "";
    } else {
      assert all[1..] == s[1..] + [quote];
      Inside(s[1..], quote);
    }
  }

  lemma {:induction false} Stands(s: string)
    requires '\'' !in s && '"' !in s
    ensures Bare(None, s) == s
  {
    if s != "" { Stands(s[1..]); }
  }
}
