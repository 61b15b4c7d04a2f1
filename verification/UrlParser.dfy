/** The parser itself: cursors that move through a NUL-terminated buffer. Every read of the buffer is
    at or before the first NUL. */
module UrlParser {
  import opened UrlText

  datatype Option<T> = None | Some(value: T)

  /** `z` is where the C string in `buf` ends. */
  ghost predicate Terminated(buf: string, z: nat) {
    z < |buf| && buf[z] == NUL && forall k :: 0 <= k < z ==> buf[k] != NUL
  }

  method IsSchemeValid(name: string) returns (ok: bool)
    ensures ok == SchemeValid(name)
  {
    for i := 0 to |name|
      invariant forall k :: 0 <= k < i ==> SchemeChar(name[k])
    {
      var c := name[i];
      if !('a' <= c <= 'z' || 'A' <= c <= 'Z') && c != '+' && c != '-' && c != '.' {
        return false;
      }
    }
    ok := true;
  }

  method LowerCase(name: string) returns (r: string)
    ensures r == Lower(name)
  {
    r := "";
    for i := 0 to |name|
      invariant |r| == i
      invariant forall k :: 0 <= k < i ==> r[k] == ToLower(name[k])
    {
      r := r + [ToLower(name[i])];
    }
  }

  lemma SpanReached(buf: string, z: nat, from: nat, to: nat, stops: string)
    requires Terminated(buf, z) && from <= to <= z
    requires forall k :: from <= k < to ==> buf[k] !in stops
    requires to == z || buf[to] in stops
    ensures Span(buf[from..z], stops) == to - from
  {
  }

  /** The scanning loop: stop at the end or at a character of `stops`. */
  method SkipTo(buf: string, ghost z: nat, from: nat, stops: string) returns (to: nat)
    requires Terminated(buf, z) && from <= z && NUL !in stops
    ensures from <= to <= z && Span(buf[from..z], stops) == to - from
    ensures buf[to] == NUL <==> to == z
    ensures to < z ==> buf[to] in stops
  {
    to := from;
    while buf[to] != NUL && buf[to] !in stops
      invariant from <= to <= z
      invariant forall k :: from <= k < to ==> buf[k] !in stops
      decreases z - to
    {
      to := to + 1;
    }
    SpanReached(buf, z, from, to, stops);
  }

  method ReadTail(buf: string, ghost z: nat, start: nat, u: Url) returns (r: Result)
    requires Terminated(buf, z) && start <= z
    ensures r == ParseTail(u, buf[start..z])
  {
    if buf[start] == NUL {
      return Ok(u);
    }
    if buf[start] != '/' {
      return Err(NoSlash);
    }
    var cur := start + 1;
    var local := SkipTo(buf, z, cur, "#?");
    ghost var t := buf[cur..z];
    assert buf[start..z][1..] == t;
    assert t[..local - cur] == buf[cur..local] && t[local - cur..] == buf[local..z];
    r := ReadQuery(buf, z, local, u.(path := buf[cur..local]));
  }

  method ReadQuery(buf: string, ghost z: nat, start: nat, u: Url) returns (r: Result)
    requires Terminated(buf, z) && start <= z
    ensures r == ParseQuery(u, buf[start..z])
  {
    if buf[start] == '?' {
      var cur := start + 1;
      var local := SkipTo(buf, z, cur, "#");
      ghost var t := buf[cur..z];
      assert buf[start..z][1..] == t;
      assert t[..local - cur] == buf[cur..local] && t[local - cur..] == buf[local..z];
      r := ReadFragment(buf, z, local, u.(query := buf[cur..local]));
    } else {
      r := ReadFragment(buf, z, start, u);
    }
  }

  method ReadFragment(buf: string, ghost z: nat, start: nat, u: Url) returns (r: Result)
    requires Terminated(buf, z) && start <= z
    ensures r == ParseFragment(u, buf[start..z])
  {
    if buf[start] == '#' {
      var cur := start + 1;
      var local := SkipTo(buf, z, cur, "");
      assert buf[start..z][1..] == buf[cur..local];
      return Ok(u.(fragment := buf[cur..local]));
    }
    r := Ok(u);
  }

  method ReadPort(buf: string, ghost z: nat, start: nat, u: Url) returns (r: Result)
    requires Terminated(buf, z) && start <= z
    ensures r == ParsePort(u, buf[start..z])
  {
    if buf[start] == ':' {
      var cur := start + 1;
      var local := SkipTo(buf, z, cur, "/");
      ghost var t := buf[cur..z];
      assert buf[start..z][1..] == t;
      assert t[..local - cur] == buf[cur..local] && t[local - cur..] == buf[local..z];
      r := ReadTail(buf, z, local, u.(port := buf[cur..local]));
    } else {
      r := ReadTail(buf, z, start, u);
    }
  }

  method SkipHost(buf: string, ghost z: nat, start: nat) returns (local: nat)
    requires Terminated(buf, z) && start <= z
    ensures start <= local <= z && HostLength(buf[start..z]) == local - start
  {
    var hasBracket := buf[start] == '[';
    local := start;
    while buf[local] != NUL
      invariant start <= local <= z
      invariant hasBracket ==> forall k :: start <= k < local ==> buf[k] != ']'
      invariant !hasBracket ==> forall k :: start <= k < local ==> buf[k] !in ":/"
      decreases z - local
    {
      if hasBracket && buf[local] == ']' {
        SpanReached(buf, z, start, local, "]");
        local := local + 1;
        return;
      } else if !hasBracket && (buf[local] == ':' || buf[local] == '/') {
        break;
      }
      local := local + 1;
    }
    SpanReached(buf, z, start, local, if hasBracket then "]" else ":/");
  }

  method ReadHost(buf: string, ghost z: nat, start: nat, u: Url) returns (r: Result)
    requires Terminated(buf, z) && start <= z
    ensures r == ParseHost(u, buf[start..z])
  {
    var local := SkipHost(buf, z, start);
    ghost var t := buf[start..z];
    assert t[..local - start] == buf[start..local] && t[local - start..] == buf[local..z];
    r := ReadPort(buf, z, local, u.(host := buf[start..local]));
  }

  /** The look-ahead for user information. */
  method SeeUserInfo(buf: string, ghost z: nat, start: nat) returns (has: bool)
    requires Terminated(buf, z) && start <= z
    ensures has == HasUserInfo(buf[start..z])
  {
    has := false;
    var local := start;
    while buf[local] != NUL
      invariant start <= local <= z && !has
      invariant forall k :: start <= k < local ==> buf[k] !in "@/"
      decreases z - local
    {
      if buf[local] == '@' {
        has := true;
        break;
      } else if buf[local] == '/' {
        break;
      }
      local := local + 1;
    }
    SpanReached(buf, z, start, local, "@/");
  }

  lemma SpanFirst(t: string, stops: string, n: nat)
    requires n < |t| && t[n] in stops && forall k :: 0 <= k < n ==> t[k] !in stops
    ensures Span(t, stops) == n
  {
  }

  lemma SplitInfoIs(t: string, m: nat, n: nat)
    requires HasUserInfo(t) && n == Span(t, "@/") && m == Span(t[..n], ":")
    ensures SplitInfo(t) == Info(t[..m], if m < n then t[m + 1..n] else "", t[n + 1..])
  {
  }

  /** The two scans of the code, for ':' or '@' and then for '@', find what one split finds. */
  lemma InfoScans(t: string, m: nat, n: nat)
    requires HasUserInfo(t) && m == Span(t, ":@") && n == Span(t, "@/")
    ensures m <= n < |t| && t[n] == '@' && (m < n <==> t[m] == ':')
    ensures m < n ==> Span(t[m + 1..], "@") == n - m - 1
    ensures SplitInfo(t) == Info(t[..m], if m < n then t[m + 1..n] else "", t[n + 1..])
  {
    assert t[m] in ":@";
    if m < n {
      var rest := t[m + 1..];
      assert rest[n - m - 1] == t[n] && forall k :: 0 <= k < n - m - 1 ==> rest[k] == t[m + 1 + k];
      SpanFirst(rest, "@", n - m - 1);
      SpanFirst(t[..n], ":", m);
    } else {
      SpanIs(t[..n], "", ":");
      assert t[..n] + "" == t[..n];
    }
    SplitInfoIs(t, m, n);
  }

  lemma Subslice(buf: string, z: nat, start: nat, from: nat, to: nat)
    requires start <= from <= to <= z <= |buf|
    ensures buf[start..z][from - start..to - start] == buf[from..to]
    ensures buf[start..z][from - start..] == buf[from..z]
    ensures buf[start..z][..from - start] == buf[start..from]
    ensures from < z ==> buf[start..z][from - start] == buf[from]
  {
    var s, r := buf[start..z][from - start..to - start], buf[from..to];
    assert |s| == |r| && forall k :: 0 <= k < |r| ==> s[k] == buf[from + k] == r[k];
    assert s == r;
  }

  /** The same scans, as cursors into the buffer. */
  lemma InfoCursors(buf: string, z: nat, start: nat, user: nat, at: nat)
    requires Terminated(buf, z) && start <= user <= z && HasUserInfo(buf[start..z])
    requires user == start + Span(buf[start..z], ":@") && at == start + Span(buf[start..z], "@/")
    ensures user <= at < z && buf[at] == '@' && (user < at <==> buf[user] == ':')
    ensures user < at ==> Span(buf[user + 1..z], "@") == at - user - 1
  {
  }

  lemma InfoCuts(buf: string, z: nat, start: nat, user: nat, at: nat)
    requires start <= user <= at < z <= |buf|
    requires var t := buf[start..z];
             SplitInfo(t) == Info(t[..user - start],
                                  if user < at then t[user - start + 1..at - start] else "", t[at - start + 1..])
    ensures SplitInfo(buf[start..z])
            == Info(buf[start..user], if user < at then buf[user + 1..at] else "", buf[at + 1..z])
  {
    Subslice(buf, z, start, user, at);
    Subslice(buf, z, start, at + 1, at + 1);
    if user < at {
      Subslice(buf, z, start, user + 1, at);
    }
  }

  lemma InfoFields(buf: string, z: nat, start: nat, user: nat, at: nat)
    requires Terminated(buf, z) && start <= user <= at < z && HasUserInfo(buf[start..z])
    requires user == start + Span(buf[start..z], ":@") && at == start + Span(buf[start..z], "@/")
    ensures SplitInfo(buf[start..z])
            == Info(buf[start..user], if user < at then buf[user + 1..at] else "", buf[at + 1..z])
  {
    InfoScans(buf[start..z], user - start, at - start);
    InfoCuts(buf, z, start, user, at);
  }

  method ReadUserInfo(buf: string, ghost z: nat, start: nat) returns (userName: string, password: string, cur: nat)
    requires Terminated(buf, z) && start <= z && HasUserInfo(buf[start..z])
    ensures cur <= z && Info(userName, password, buf[cur..z]) == SplitInfo(buf[start..z])
  {
    var local := SkipTo(buf, z, start, ":@");
    ghost var user, at := local, start + Span(buf[start..z], "@/");
    InfoCursors(buf, z, start, user, at);
    InfoFields(buf, z, start, user, at);
    userName, password := buf[start..local], "";
    cur := local;
    if buf[cur] == ':' {
      cur := cur + 1;
      local := SkipTo(buf, z, cur, "@");
      password := buf[cur..local];
      cur := local;
    }
    assert cur == at;
    if buf[cur] != '@' {
      assert false;   // the NoAtSign error cannot be reached
    }
    cur := cur + 1;
  }

  method ReadAuthority(buf: string, ghost z: nat, start: nat, u: Url) returns (r: Result)
    requires Terminated(buf, z) && start <= z && u.userName == "" && u.password == ""
    ensures r == ParseAuthority(u, buf[start..z])
  {
    var hasUserName := SeeUserInfo(buf, z, start);
    if hasUserName {
      var userName, password, cur := ReadUserInfo(buf, z, start);
      r := ReadHost(buf, z, cur, u.(userName := userName, password := password));
    } else {
      r := ReadHost(buf, z, start, u);
    }
  }

  /** The scheme and the two slashes; on success the cursor is at the authority. */
  method ReadScheme(buf: string, ghost z: nat) returns (s: Start, cur: nat)
    requires Terminated(buf, z)
    ensures cur <= z
    ensures s.Bad? ==> SplitScheme(buf[0..z]) == s
    ensures s.Start? ==> SplitScheme(buf[0..z]) == Start(s.scheme, buf[cur..z])
  {
    ghost var t := buf[0..z];
    var local := SkipTo(buf, z, 0, ":");
    cur := local;
    if buf[local] == NUL {
      return Bad(NoUrlCharacter), cur;
    }
    var scheme := buf[..local];
    ghost var rest := t[local + 1..];
    assert t[..local] == scheme && forall k :: 0 <= k < |rest| ==> rest[k] == buf[local + 1 + k];
    var valid := IsSchemeValid(scheme);
    if !valid {
      return Bad(InvalidSchemeName), cur;
    }
    scheme := LowerCase(scheme);
    if buf[local + 1] != '/' {
      return Bad(NoDoubleSlash), cur;
    }
    if buf[local + 2] != '/' {
      return Bad(NoDoubleSlash), cur;
    }
    cur := local + 3;
    assert t[local + 3..] == buf[cur..z];
    assert "//" <= rest;
    s := Start(scheme, "");
  }

  method ParseURL(URL: string) returns (r: Result)
    ensures r == Parse(CString(URL))
    ensures '\0' !in URL ==> forall u :: r == Ok(u) <==> exists f :: Fits(u, f) && URL == Render(u, f)
  {
    if '\0' !in URL {
      CStringCuts(URL, "");
      forall u ensures Parse(URL) == Ok(u) <==> exists f :: Fits(u, f) && URL == Render(u, f) {
        ParseExactly(URL, u);
      }
    }
    var buf := URL + [NUL];
    ghost var z := Span(URL, [NUL]);
    assert Terminated(buf, z) && buf[0..z] == CString(URL);
    var s, cur := ReadScheme(buf, z);
    if s.Bad? {
      return Err(s.error);
    }
    r := ReadAuthority(buf, z, cur, EMPTY.(scheme := s.scheme));
  }

  // ---------- Printing with no NUL in any part ----------

  ghost predicate NoNul(u: Url) {
    && NUL !in u.scheme && NUL !in u.userName && NUL !in u.password && NUL !in u.host
    && NUL !in u.port && NUL !in u.path && NUL !in u.query && NUL !in u.fragment
  }

  lemma PrintHasNoNul(u: Url)
    requires NoNul(u)
    ensures '\0' !in Print(u)
  {
    var f := FullForm(u);
    assert NUL !in RenderTail(u, f.tail);
    assert NUL !in RenderHost(u, f.port, f.tail);
    assert NUL !in RenderInfo(u.userName, u.password, f.info, RenderHost(u, f.port, f.tail));
  }

  /** A fully delimited URL is parsed back into exactly its parts. */
  lemma UrlRoundTrip(u: Url)
    requires WellFormed(u) && NoNul(u)
    ensures Parse(CString(Print(u))) == Ok(u)
  {
    PrintHasNoNul(u);
    CStringCuts(Print(u), "");
    PrintThenParse(u);
  }

  // ---------- The port number ----------

  predicate IsDigit(c: char) {
    '0' <= c <= '9'
  }

  predicate IsSpace(c: char) {
    c == ' ' || '\t' as int <= c as int <= '\r' as int
  }

  /** The number at the start of `s`, added to the digits read so far. */
  function Digits(s: string, acc: nat): nat {
    if s == "" || !IsDigit(s[0]) then acc else Digits(s[1..], 10 * acc + (s[0] as int - '0' as int))
  }

  /** atoi: blanks, an optional sign, digits. */
  function Atoi(s: string): int {
    if s == "" then 0
    else if IsSpace(s[0]) then Atoi(s[1..])
    else if s[0] == '-' then (var n: int := Digits(s[1..], 0); -n)
    else if s[0] == '+' then Digits(s[1..], 0)
    else Digits(s, 0)
  }

  function GetPort(r: Result): Option<int> {
    if r.Err? then None
    else
      var port := Atoi(r.url.port);
      if port <= 0 || port > 65535 then None else Some(port)
  }

  function Decimal(n: nat): string {
    if n < 10 then ["0123456789"[n]] else Decimal(n / 10) + ["0123456789"[n % 10]]
  }

  lemma {:induction false} DigitsAppend(s: string, c: char, acc: nat)
    requires (forall k :: 0 <= k < |s| ==> IsDigit(s[k])) && IsDigit(c)
    ensures Digits(s + [c], acc) == 10 * Digits(s, acc) + (c as int - '0' as int)
  {
    if s == "" {
      assert s + [c] == [c];
      assert Digits([c][1..], 10 * acc + (c as int - '0' as int)) == 10 * acc + (c as int - '0' as int);
    } else {
      assert (s + [c])[1..] == s[1..] + [c];
      DigitsAppend(s[1..], c, 10 * acc + (s[0] as int - '0' as int));
    }
  }

  lemma {:induction false} DecimalDigits(n: nat)
    ensures Decimal(n) != "" && forall k :: 0 <= k < |Decimal(n)| ==> IsDigit(Decimal(n)[k])
    ensures Digits(Decimal(n), 0) == n
  {
    if n >= 10 {
      DecimalDigits(n / 10);
      DigitsAppend(Decimal(n / 10), "0123456789"[n % 10], 0);
    }
  }

  lemma AtoiDecimal(n: nat)
    ensures Atoi(Decimal(n)) == n
  {
    DecimalDigits(n);
    assert IsDigit(Decimal(n)[0]);
  }

  /** A port written in decimal is returned exactly when it lies between 1 and 65535. */
  lemma PortRoundTrip(u: Url, n: nat)
    requires WellFormed(u) && NoNul(u) && u.port == Decimal(n)
    ensures GetPort(Parse(CString(Print(u)))) == if 1 <= n <= 65535 then Some(n) else None
  {
    UrlRoundTrip(u);
    AtoiDecimal(n);
  }

  // ---------- Which texts are port numbers ----------

  ghost predicate AllZeros(s: string) {
    forall k :: 0 <= k < |s| ==> s[k] == '0'
  }

  ghost predicate AllBlanks(s: string) {
    forall k :: 0 <= k < |s| ==> s[k] == ' ' || '\t' <= s[k] <= '\r'
  }

  ghost predicate NoDigitFirst(s: string) {
    s == "" || s[0] !in "0123456789"
  }

  lemma IsDigitIff(c: char)
    ensures IsDigit(c) <==> c in "0123456789"
  {
    if IsDigit(c) {
      assert "0123456789"[c as int - '0' as int] == c;
    }
  }

  lemma {:induction false} DigitsStop(s: string, rest: string, acc: nat)
    requires (forall k :: 0 <= k < |s| ==> IsDigit(s[k])) && NoDigitFirst(rest)
    ensures Digits(s + rest, acc) == Digits(s, acc)
  {
    if s == "" {
      assert s + rest == rest;
      if rest != "" {
        IsDigitIff(rest[0]);
      }
    } else {
      assert (s + rest)[0] == s[0] && (s + rest)[1..] == s[1..] + rest;
      DigitsStop(s[1..], rest, 10 * acc + (s[0] as int - '0' as int));
    }
  }

  lemma {:induction false} ZerosFirst(zeros: string, s: string)
    requires AllZeros(zeros)
    ensures Digits(zeros + s, 0) == Digits(s, 0)
  {
    if zeros == "" {
      assert zeros + s == s;
    } else {
      assert (zeros + s)[0] == '0' && (zeros + s)[1..] == zeros[1..] + s;
      ZerosFirst(zeros[1..], s);
    }
  }

  lemma {:induction false} BlanksFirst(blanks: string, s: string)
    requires AllBlanks(blanks)
    ensures Atoi(blanks + s) == Atoi(s)
  {
    if blanks == "" {
      assert blanks + s == s;
    } else {
      assert (blanks + s)[0] == blanks[0] && (blanks + s)[1..] == blanks[1..] + s;
      BlanksFirst(blanks[1..], s);
    }
  }

  /** Blanks, an optional '+', zeros, the number in decimal, and then anything but a digit. */
  ghost predicate PortText(s: string, blanks: string, plus: bool, zeros: string, n: nat, rest: string) {
    && AllBlanks(blanks) && AllZeros(zeros) && NoDigitFirst(rest)
    && s == blanks + ((if plus then "+" else "") + (zeros + (Decimal(n) + rest)))
  }

  lemma NumberRead(zeros: string, n: nat, rest: string)
    requires AllZeros(zeros) && NoDigitFirst(rest)
    ensures var t := zeros + (Decimal(n) + rest);
            Digits(t, 0) == n && t != "" && IsDigit(t[0])
  {
    DecimalDigits(n);
    ZerosFirst(zeros, Decimal(n) + rest);
    DigitsStop(Decimal(n), rest, 0);
    assert zeros == "" ==> (zeros + (Decimal(n) + rest))[0] == Decimal(n)[0];
    assert zeros != "" ==> (zeros + (Decimal(n) + rest))[0] == zeros[0];
  }

  lemma PortTextRead(s: string, blanks: string, plus: bool, zeros: string, n: nat, rest: string)
    requires PortText(s, blanks, plus, zeros, n, rest)
    ensures Atoi(s) == n
  {
    var t := zeros + (Decimal(n) + rest);
    NumberRead(zeros, n, rest);
    BlanksFirst(blanks, (if plus then "+" else "") + t);
    if plus {
      assert ("+" + t)[1..] == t;
    } else {
      assert "" + t == t;
    }
  }

  lemma {:induction false} ZeroIsZeros(s: string)
    requires (forall k :: 0 <= k < |s| ==> IsDigit(s[k])) && Digits(s, 0) == 0
    ensures AllZeros(s)
  {
    if s != "" {
      var init, c := s[..|s| - 1], s[|s| - 1];
      assert s == init + [c];
      DigitsAppend(init, c, 0);
      ZeroIsZeros(init);
    }
  }

  lemma Regrouped(init: string, zeros: string, digits: string, c: char)
    requires init == zeros + digits
    ensures init + [c] == zeros + (digits + [c])
  {
  }

  lemma DecimalAppend(v: nat, c: char)
    requires IsDigit(c)
    ensures var d := c as int - '0' as int;
            Decimal(10 * v + d) == if v == 0 then [c] else Decimal(v) + [c]
  {
    var d := c as int - '0' as int;
    assert "0123456789"[d] == c;
    assert (10 * v + d) / 10 == v && (10 * v + d) % 10 == d;
  }

  /** A string of digits is zeros followed by the decimal form of its value. */
  lemma {:induction false} DigitsAreDecimal(s: string) returns (zeros: string)
    requires (forall k :: 0 <= k < |s| ==> IsDigit(s[k])) && Digits(s, 0) > 0
    ensures AllZeros(zeros) && s == zeros + Decimal(Digits(s, 0))
  {
    assert s != "";
    var init, c := s[..|s| - 1], s[|s| - 1];
    assert s == init + [c];
    DigitsAppend(init, c, 0);
    DecimalAppend(Digits(init, 0), c);
    if Digits(init, 0) == 0 {
      ZeroIsZeros(init);
      zeros := init;
    } else {
      zeros := DigitsAreDecimal(init);
      Regrouped(init, zeros, Decimal(Digits(init, 0)), c);
    }
  }

  /** The digits at the start of `s`, and what stops them. */
  lemma {:induction false} DigitRun(s: string) returns (ds: string, rest: string)
    ensures s == ds + rest && (forall k :: 0 <= k < |ds| ==> IsDigit(ds[k])) && NoDigitFirst(rest)
  {
    if s == "" || !IsDigit(s[0]) {
      ds, rest := "", s;
      if s != "" {
        IsDigitIff(s[0]);
      }
    } else {
      ds, rest := DigitRun(s[1..]);
      ds := [s[0]] + ds;
    }
  }

  lemma NumberWritten(s: string) returns (zeros: string, rest: string)
    requires Digits(s, 0) > 0
    ensures AllZeros(zeros) && NoDigitFirst(rest) && s == zeros + (Decimal(Digits(s, 0)) + rest)
  {
    var ds, stop := DigitRun(s);
    rest := stop;
    DigitsStop(ds, rest, 0);
    zeros := DigitsAreDecimal(ds);
  }

  lemma {:induction false} PositiveWritten(s: string) returns (blanks: string, plus: bool, zeros: string, rest: string)
    requires Atoi(s) > 0
    ensures PortText(s, blanks, plus, zeros, Atoi(s), rest)
  {
    if IsSpace(s[0]) {
      blanks, plus, zeros, rest := PositiveWritten(s[1..]);
      blanks := [s[0]] + blanks;
      assert s == [s[0]] + s[1..];
    } else if s[0] == '+' {
      zeros, rest := NumberWritten(s[1..]);
      blanks, plus := "", true;
      assert s == "+" + s[1..];
    } else {
      zeros, rest := NumberWritten(s);
      blanks, plus := "", false;
    }
  }

  /** GetPort returns p if and only if the URL is valid, p lies in 1..65535, and the port's text is blanks,
      an optional '+', zeros and p in decimal, with anything but a digit behind. In particular an error, a
      missing port, a negative one and one that does not start with a number give nothing. */
  lemma GetPortIff(r: Result, p: int)
    ensures GetPort(r) == Some(p) <==>
              && r.Ok? && 1 <= p <= 65535
              && exists blanks, plus, zeros, rest :: PortText(r.url.port, blanks, plus, zeros, p, rest)
  {
    if GetPort(r) == Some(p) {
      var blanks, plus, zeros, rest := PositiveWritten(r.url.port);
    }
    if r.Ok? && 1 <= p <= 65535 {
      forall blanks, plus, zeros, rest | PortText(r.url.port, blanks, plus, zeros, p, rest)
        ensures GetPort(r) == Some(p)
      {
        PortTextRead(r.url.port, blanks, plus, zeros, p, rest);
      }
    }
  }
}
