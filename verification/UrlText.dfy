/** What ParseURL means, on text: each part is cut off at the first delimiter that ends it. */
module UrlText {

  const NUL: char := '\0'

  /** The first position from `i` on that holds a character of `stops`, or the end. */
  function ScanFrom(t: string, i: nat, stops: string): (n: nat)
    requires i <= |t|
    ensures i <= n <= |t|
    ensures forall k :: i <= k < n ==> t[k] !in stops
    ensures n < |t| ==> t[n] in stops
    decreases |t| - i
  {
    if i == |t| then i else if t[i] in stops then i else ScanFrom(t, i + 1, stops)
  }

  /** The length of the longest prefix without a character of `stops`. */
  function Span(t: string, stops: string): (n: nat)
    ensures n <= |t|
    ensures forall k :: 0 <= k < n ==> t[k] !in stops
    ensures n < |t| ==> t[n] in stops
  {
    ScanFrom(t, 0, stops)
  }

  ghost predicate Free(t: string, stops: string) {
    forall k :: 0 <= k < |t| ==> t[k] !in stops
  }

  /** What c_str() shows of a string: the text before the first NUL. */
  function CString(s: string): string {
    s[..Span(s, [NUL])]
  }

  predicate SchemeChar(c: char) {
    'a' <= c <= 'z' || 'A' <= c <= 'Z' || c == '+' || c == '-' || c == '.'
  }

  predicate SchemeValid(s: string) {
    forall k :: 0 <= k < |s| ==> SchemeChar(s[k])
  }

  const UPPERCASE := "ABCDEFGHIJKLMNOPQRSTUVWXYZ"
  const LOWERCASE := "abcdefghijklmnopqrstuvwxyz"

  function ToLower(c: char): char {
    if 'A' <= c <= 'Z' then (c as int + 32) as char else c
  }

  function Lower(s: string): (r: string)
    ensures |r| == |s|
    ensures forall k :: 0 <= k < |s| ==> r[k] == ToLower(s[k])
  {
    if s == "" then "" else [ToLower(s[0])] + Lower(s[1..])
  }

  /** c_str() ends at the first NUL character. */
  lemma CStringCuts(a: string, b: string)
    requires '\0' !in a
    ensures CString(a) == a && CString(a + "\0" + b) == a
  {
    SpanIs(a, "", [NUL]);
    assert a + "" == a;
    SpanIs(a, "\0" + b, [NUL]);
    assert a + "\0" + b == a + ("\0" + b);
  }

  // ---------- Schemes, by the alphabet ----------

  /** Letters of either case, '+', '-' and '.'. */
  ghost predicate SchemeText(s: string) {
    forall k :: 0 <= k < |s| ==> s[k] in LOWERCASE || s[k] in UPPERCASE || s[k] in "+-."
  }

  /** The letter `b` is `a`, or the lower-case letter at the place `a` has in the upper-case alphabet. */
  ghost predicate LowerLetter(a: char, b: char) {
    (exists i :: 0 <= i < 26 && a == UPPERCASE[i] && b == LOWERCASE[i]) || (a !in UPPERCASE && b == a)
  }

  ghost predicate Lowered(written: string, stored: string) {
    |stored| == |written| && forall k :: 0 <= k < |written| ==> LowerLetter(written[k], stored[k])
  }

  /** The alphabets are runs of consecutive characters. */
  lemma AlphabetsAre()
    ensures |UPPERCASE| == 26 && forall i :: 0 <= i < 26 ==> UPPERCASE[i] as int == 65 + i
    ensures |LOWERCASE| == 26 && forall i :: 0 <= i < 26 ==> LOWERCASE[i] as int == 97 + i
  {
  }

  lemma InAlphabet(alphabet: string, first: nat, c: char)
    requires |alphabet| == 26 && forall i :: 0 <= i < 26 ==> alphabet[i] as int == first + i
    ensures c in alphabet <==> first <= c as int < first + 26
  {
    if first <= c as int < first + 26 {
      assert alphabet[c as int - first] == c;
    }
  }

  lemma LettersAre(c: char)
    ensures c in UPPERCASE <==> 'A' <= c <= 'Z'
    ensures c in LOWERCASE <==> 'a' <= c <= 'z'
  {
    AlphabetsAre();
    InAlphabet(UPPERCASE, 65, c);
    InAlphabet(LOWERCASE, 97, c);
  }

  lemma ToLowerIs(a: char, b: char)
    ensures LowerLetter(a, b) <==> ToLower(a) == b
  {
    AlphabetsAre();
    InAlphabet(UPPERCASE, 65, a);
    if a in UPPERCASE {
      var i := a as int - 65;
      assert UPPERCASE[i] == a && LOWERCASE[i] == ToLower(a);
    }
  }

  lemma LoweredIs(written: string, stored: string)
    ensures Lowered(written, stored) <==> stored == Lower(written)
  {
    forall k | 0 <= k < |written| && |stored| == |written|
      ensures LowerLetter(written[k], stored[k]) <==> stored[k] == ToLower(written[k])
    {
      ToLowerIs(written[k], stored[k]);
    }
  }

  lemma SchemeTextIs(s: string)
    ensures SchemeValid(s) <==> SchemeText(s)
  {
    forall k | 0 <= k < |s|
      ensures SchemeChar(s[k]) <==> s[k] in LOWERCASE || s[k] in UPPERCASE || s[k] in "+-."
    {
      LettersAre(s[k]);
    }
  }

  datatype Error = NoUrlCharacter | InvalidSchemeName | NoDoubleSlash | NoAtSign | NoSlash

  datatype Url = Url(
    scheme: string, userName: string, password: string, host: string, port: string,
    path: string, query: string, fragment: string)

  datatype Result = Ok(url: Url) | Err(error: Error)

  const EMPTY := Url("", "", "", "", "", "", "", "")

  /** After host and port: nothing, or a path with an optional query and fragment. */
  function ParseTail(u: Url, t: string): Result {
    if t == "" then Ok(u)
    else if t[0] != '/' then Err(NoSlash)
    else
      var p := Span(t[1..], "#?");
      ParseQuery(u.(path := t[1..][..p]), t[1..][p..])
  }

  function ParseQuery(u: Url, t: string): Result {
    if t != "" && t[0] == '?' then
      var q := Span(t[1..], "#");
      ParseFragment(u.(query := t[1..][..q]), t[1..][q..])
    else ParseFragment(u, t)
  }

  function ParseFragment(u: Url, t: string): Result {
    if t != "" && t[0] == '#' then Ok(u.(fragment := t[1..])) else Ok(u)
  }

  function ParsePort(u: Url, t: string): Result {
    if t != "" && t[0] == ':' then
      var p := Span(t[1..], "/");
      ParseTail(u.(port := t[1..][..p]), t[1..][p..])
    else ParseTail(u, t)
  }

  /** Where the host ends: a bracketed host after its first ']', a plain one before ':' or '/'. */
  function HostLength(t: string): (n: nat)
    ensures n <= |t|
  {
    if t != "" && t[0] == '[' then
      var n := Span(t, "]");
      if n < |t| then n + 1 else n
    else Span(t, ":/")
  }

  function ParseHost(u: Url, t: string): Result {
    var n := HostLength(t);
    ParsePort(u.(host := t[..n]), t[n..])
  }

  /** User information is there when an '@' comes before any '/'. */
  predicate HasUserInfo(t: string) {
    var n := Span(t, "@/");
    n < |t| && t[n] == '@'
  }

  datatype Info = Info(userName: string, password: string, rest: string)

  function SplitInfo(t: string): Info {
    if HasUserInfo(t) then
      var n := Span(t, "@/");
      var info := t[..n];
      var m := Span(info, ":");
      Info(info[..m], if m < |info| then info[m + 1..] else "", t[n + 1..])
    else Info("", "", t)
  }

  function ParseAuthority(u: Url, t: string): Result {
    var i := SplitInfo(t);
    ParseHost(u.(userName := i.userName, password := i.password), i.rest)
  }

  datatype Start = Bad(error: Error) | Start(scheme: string, authority: string)

  function SplitScheme(t: string): Start {
    var n := Span(t, ":");
    if n == |t| then Bad(NoUrlCharacter)
    else if !SchemeValid(t[..n]) then Bad(InvalidSchemeName)
    else if !("//" <= t[n + 1..]) then Bad(NoDoubleSlash)
    else Start(Lower(t[..n]), t[n + 3..])
  }

  function Parse(t: string): Result {
    match SplitScheme(t)
    case Bad(e) => Err(e)
    case Start(scheme, authority) => ParseAuthority(EMPTY.(scheme := scheme), authority)
  }

  // ---------- The grammar ----------

  datatype InfoForm = NoInfo | UserOnly | UserAndPassword

  datatype TailForm = NoTail | PathTail(query: bool, fragment: bool)

  /** How a URL is written: the scheme's own letters, and which optional delimiters are there. */
  datatype Form = Form(scheme: string, info: InfoForm, port: bool, tail: TailForm)

  function RenderFragment(u: Url, shown: bool): string {
    if shown then "#" + u.fragment else ""
  }

  function RenderQuery(u: Url, query: bool, fragment: bool): string {
    if query then "?" + (u.query + RenderFragment(u, fragment)) else RenderFragment(u, fragment)
  }

  function RenderTail(u: Url, f: TailForm): string {
    match f
    case NoTail => ""
    case PathTail(query, fragment) => "/" + (u.path + RenderQuery(u, query, fragment))
  }

  function RenderPort(u: Url, port: bool, f: TailForm): string {
    if port then ":" + (u.port + RenderTail(u, f)) else RenderTail(u, f)
  }

  function RenderHost(u: Url, port: bool, f: TailForm): string {
    u.host + RenderPort(u, port, f)
  }

  function RenderInfo(userName: string, password: string, f: InfoForm, rest: string): string {
    match f
    case NoInfo => rest
    case UserOnly => userName + ("@" + rest)
    case UserAndPassword => userName + (":" + (password + ("@" + rest)))
  }

  function Render(u: Url, f: Form): string {
    f.scheme + (":" + ("//" + RenderInfo(u.userName, u.password, f.info, RenderHost(u, f.port, f.tail))))
  }

  /** A host that opens a bracket and never closes it swallows everything after it. */
  predicate OpenBracket(h: string) {
    h != "" && h[0] == '[' && Span(h, "]") == |h|
  }

  /** A closed bracket host has its only ']' at the end; a plain one has no ':' and no '/'. */
  ghost predicate HostOk(h: string) {
    if h != "" && h[0] == '[' then Span(h, "]") == |h| - 1 else Free(h, ":/")
  }

  ghost predicate TailFits(u: Url, f: TailForm) {
    match f
    case NoTail => u.path == "" && u.query == "" && u.fragment == ""
    case PathTail(query, fragment) =>
      && Free(u.path, "#?")
      && (if query then Free(u.query, "#") else u.query == "")
      && (fragment || u.fragment == "")
  }

  ghost predicate PortFits(u: Url, port: bool) {
    if port then Free(u.port, "/") else u.port == ""
  }

  ghost predicate HostFits(u: Url, port: bool, f: TailForm) {
    && TailFits(u, f) && PortFits(u, port)
    && if OpenBracket(u.host) then !port && f == NoTail else HostOk(u.host)
  }

  /** Without user information, what follows must not look as if there were some. */
  ghost predicate InfoFits(userName: string, password: string, f: InfoForm, rest: string) {
    match f
    case NoInfo => userName == "" && password == "" && !HasUserInfo(rest)
    case UserOnly => Free(userName, ":@/") && password == ""
    case UserAndPassword => Free(userName, ":@/") && Free(password, "@/")
  }

  /** `u` can be written in the form `f`. */
  ghost predicate Fits(u: Url, f: Form) {
    && SchemeText(f.scheme) && Lowered(f.scheme, u.scheme)
    && InfoFits(u.userName, u.password, f.info, RenderHost(u, f.port, f.tail))
    && HostFits(u, f.port, f.tail)
  }

  // ---------- Whatever is written is read ----------

  lemma SpanIs(a: string, b: string, stops: string)
    requires Free(a, stops) && (b != "" ==> b[0] in stops)
    ensures Span(a + b, stops) == |a|
    ensures (a + b)[..|a|] == a && (a + b)[|a|..] == b
  {
  }

  lemma QueryRendered(v: Url, u: Url, query: bool, fragment: bool)
    requires if query then Free(u.query, "#") else u.query == ""
    requires (fragment || u.fragment == "") && v.query == "" && v.fragment == ""
    ensures ParseQuery(v, RenderQuery(u, query, fragment)) == Ok(v.(query := u.query, fragment := u.fragment))
  {
    var rest := RenderFragment(u, fragment);
    SpanIs(u.query, rest, "#");
    assert ("?" + (u.query + rest))[1..] == u.query + rest;
    assert ("#" + u.fragment)[1..] == u.fragment;
  }

  lemma TailRendered(v: Url, u: Url, f: TailForm)
    requires TailFits(u, f) && v.path == "" && v.query == "" && v.fragment == ""
    ensures ParseTail(v, RenderTail(u, f)) == Ok(v.(path := u.path, query := u.query, fragment := u.fragment))
  {
    if f.PathTail? {
      var rest := RenderQuery(u, f.query, f.fragment);
      SpanIs(u.path, rest, "#?");
      assert RenderTail(u, f)[1..] == u.path + rest;
      QueryRendered(v.(path := u.path), u, f.query, f.fragment);
    }
  }

  lemma PortRendered(v: Url, u: Url, port: bool, f: TailForm)
    requires TailFits(u, f) && PortFits(u, port)
    requires v.port == "" && v.path == "" && v.query == "" && v.fragment == ""
    ensures ParsePort(v, RenderPort(u, port, f))
         == Ok(v.(port := u.port, path := u.path, query := u.query, fragment := u.fragment))
  {
    if port {
      SpanIs(u.port, RenderTail(u, f), "/");
      assert RenderPort(u, port, f)[1..] == u.port + RenderTail(u, f);
    }
    TailRendered(v.(port := u.port), u, f);
  }

  lemma HostCutIs(h: string, rest: string)
    requires if OpenBracket(h) then rest == "" else HostOk(h) && (rest != "" ==> rest[0] == ':' || rest[0] == '/')
    ensures HostLength(h + rest) == |h| && (h + rest)[..|h|] == h && (h + rest)[|h|..] == rest
  {
  }

  lemma HostRendered(v: Url, u: Url, port: bool, f: TailForm)
    requires HostFits(u, port, f)
    requires v.port == "" && v.path == "" && v.query == "" && v.fragment == ""
    ensures ParseHost(v, RenderHost(u, port, f))
         == Ok(v.(host := u.host, port := u.port, path := u.path, query := u.query, fragment := u.fragment))
  {
    HostCutIs(u.host, RenderPort(u, port, f));
    PortRendered(v.(host := u.host), u, port, f);
  }

  lemma InfoSpan(info: string, user: string, rest: string)
    requires Free(info, "@/") && user <= info && Free(user, ":") && (|user| < |info| ==> info[|user|] == ':')
    ensures SplitInfo(info + ("@" + rest))
         == Info(user, if |user| < |info| then info[|user| + 1..] else "", rest)
  {
    var t := info + ("@" + rest);
    SpanIs(info, "@" + rest, "@/");
    SpanIs(user, info[|user|..], ":");
    assert info == user + info[|user|..];
    assert t[|info|] == '@' && t[|info| + 1..] == rest;
  }

  /** The text before the '@', put together in two ways. */
  lemma InfoText(userName: string, password: string, rest: string)
    ensures RenderInfo(userName, password, UserAndPassword, rest) == (userName + (":" + password)) + ("@" + rest)
    ensures var info := userName + (":" + password);
            userName <= info && info[|userName|] == ':' && info[|userName| + 1..] == password
    ensures Free(userName, "@/") && Free(password, "@/") ==> Free(userName + (":" + password), "@/")
  {
  }

  lemma InfoRendered(userName: string, password: string, f: InfoForm, rest: string)
    requires InfoFits(userName, password, f, rest)
    ensures SplitInfo(RenderInfo(userName, password, f, rest)) == Info(userName, password, rest)
  {
    match f
    case NoInfo =>
    case UserOnly =>
      InfoSpan(userName, userName, rest);
    case UserAndPassword =>
      InfoText(userName, password, rest);
      InfoSpan(userName + (":" + password), userName, rest);
  }

  lemma SchemeRendered(scheme: string, authority: string)
    requires SchemeValid(scheme)
    ensures SplitScheme(scheme + (":" + ("//" + authority))) == Start(Lower(scheme), authority)
  {
    var t := scheme + (":" + ("//" + authority));
    var n := |scheme|;
    SpanIs(scheme, ":" + ("//" + authority), ":");
    assert t[n + 1..] == "//" + authority;
    assert t[n + 3..] == authority;
  }

  lemma RenderThenParse(u: Url, f: Form)
    requires Fits(u, f)
    ensures Parse(Render(u, f)) == Ok(u)
  {
    var rest := RenderHost(u, f.port, f.tail);
    SchemeTextIs(f.scheme);
    LoweredIs(f.scheme, u.scheme);
    SchemeRendered(f.scheme, RenderInfo(u.userName, u.password, f.info, rest));
    InfoRendered(u.userName, u.password, f.info, rest);
    HostRendered(EMPTY.(scheme := u.scheme, userName := u.userName, password := u.password), u, f.port, f.tail);
  }

  // ---------- Whatever is read was written ----------

  lemma QueryForms(v: Url, t: string) returns (query: bool, fragment: bool)
    requires v.query == "" && v.fragment == "" && (t != "" ==> t[0] == '?' || t[0] == '#')
    ensures ParseQuery(v, t).Ok?
    ensures var u := ParseQuery(v, t).url;
            && t == RenderQuery(u, query, fragment) && u == v.(query := u.query, fragment := u.fragment)
            && (if query then Free(u.query, "#") else u.query == "") && (fragment || u.fragment == "")
  {
    if t != "" && t[0] == '?' {
      var q := Span(t[1..], "#");
      var last := t[1..][q..];
      assert t == "?" + (t[1..][..q] + last);
      assert last != "" ==> last == "#" + last[1..];
      query, fragment := true, last != "";
    } else {
      assert t != "" ==> t == "#" + t[1..];
      query, fragment := false, t != "";
    }
  }

  lemma TailForms(v: Url, t: string) returns (f: TailForm)
    requires v.path == "" && v.query == "" && v.fragment == "" && ParseTail(v, t).Ok?
    ensures var u := ParseTail(v, t).url;
            TailFits(u, f) && t == RenderTail(u, f) && u == v.(path := u.path, query := u.query, fragment := u.fragment)
  {
    if t == "" {
      f := NoTail;
    } else {
      var p := Span(t[1..], "#?");
      var rest := t[1..][p..];
      assert t == "/" + (t[1..][..p] + rest);
      var query, fragment := QueryForms(v.(path := t[1..][..p]), rest);
      f := PathTail(query, fragment);
    }
  }

  lemma PortForms(v: Url, t: string) returns (port: bool, f: TailForm)
    requires v.port == "" && v.path == "" && v.query == "" && v.fragment == "" && ParsePort(v, t).Ok?
    ensures var u := ParsePort(v, t).url;
            && TailFits(u, f) && PortFits(u, port) && t == RenderPort(u, port, f)
            && u == v.(port := u.port, path := u.path, query := u.query, fragment := u.fragment)
    ensures t == "" ==> !port && f == NoTail
  {
    if t != "" && t[0] == ':' {
      var p := Span(t[1..], "/");
      assert t == ":" + (t[1..][..p] + t[1..][p..]);
      f := TailForms(v.(port := t[1..][..p]), t[1..][p..]);
      port := true;
    } else {
      f := TailForms(v, t);
      port := false;
    }
  }

  lemma HostCut(t: string)
    ensures var h := t[..HostLength(t)];
            if OpenBracket(h) then h == t else HostOk(h)
  {
  }

  lemma HostForms(v: Url, t: string) returns (port: bool, f: TailForm)
    requires v.port == "" && v.path == "" && v.query == "" && v.fragment == "" && ParseHost(v, t).Ok?
    ensures var u := ParseHost(v, t).url;
            && HostFits(u, port, f) && t == RenderHost(u, port, f)
            && u.scheme == v.scheme && u.userName == v.userName && u.password == v.password
  {
    var n := HostLength(t);
    HostCut(t);
    port, f := PortForms(v.(host := t[..n]), t[n..]);
    assert t == t[..n] + t[n..];
  }

  lemma PasswordForm(info: string, m: nat, rest: string)
    requires m < |info| && info[m] == ':'
    ensures info + ("@" + rest) == RenderInfo(info[..m], info[m + 1..], UserAndPassword, rest)
  {
    assert info == info[..m] + (":" + info[m + 1..]);
    InfoText(info[..m], info[m + 1..], rest);
  }

  lemma InfoCutsFree(info: string, m: nat)
    requires Free(info, "@/") && m == Span(info, ":")
    ensures Free(info[..m], ":@/")
    ensures m < |info| ==> info[m] == ':' && Free(info[m + 1..], "@/")
  {
    assert forall k :: 0 <= k < m ==> info[..m][k] == info[k];
  }

  lemma InfoForms(t: string) returns (f: InfoForm)
    ensures var i := SplitInfo(t);
            InfoFits(i.userName, i.password, f, i.rest) && t == RenderInfo(i.userName, i.password, f, i.rest)
  {
    if !HasUserInfo(t) {
      f := NoInfo;
    } else {
      var n := Span(t, "@/");
      var info := t[..n];
      var m := Span(info, ":");
      assert t == info + ("@" + t[n + 1..]);
      InfoCutsFree(info, m);
      if m < |info| {
        f := UserAndPassword;
        PasswordForm(info, m, t[n + 1..]);
      } else {
        f := UserOnly;
        assert info[..m] == info;
      }
    }
  }

  lemma AuthorityForms(v: Url, a: string) returns (info: InfoForm, port: bool, tail: TailForm)
    requires v.port == "" && v.path == "" && v.query == "" && v.fragment == "" && ParseAuthority(v, a).Ok?
    ensures var u := ParseAuthority(v, a).url;
            && u.scheme == v.scheme && HostFits(u, port, tail)
            && InfoFits(u.userName, u.password, info, RenderHost(u, port, tail))
            && a == RenderInfo(u.userName, u.password, info, RenderHost(u, port, tail))
  {
    var i := SplitInfo(a);
    info := InfoForms(a);
    port, tail := HostForms(v.(userName := i.userName, password := i.password), i.rest);
  }

  lemma SchemeForms(t: string) returns (scheme: string)
    requires SplitScheme(t).Start?
    ensures SchemeValid(scheme) && SplitScheme(t).scheme == Lower(scheme)
    ensures t == scheme + (":" + ("//" + SplitScheme(t).authority))
  {
    scheme := t[..Span(t, ":")];
  }

  lemma ParseThenRender(t: string) returns (f: Form)
    requires Parse(t).Ok?
    ensures Fits(Parse(t).url, f) && t == Render(Parse(t).url, f)
  {
    var start := SplitScheme(t);
    var scheme := SchemeForms(t);
    SchemeTextIs(scheme);
    LoweredIs(scheme, start.scheme);
    var info, port, tail := AuthorityForms(EMPTY.(scheme := start.scheme), start.authority);
    f := Form(scheme, info, port, tail);
  }

  /** ParseURL accepts exactly the texts of the grammar, with exactly the parts they were written from. */
  lemma ParseExactly(t: string, u: Url)
    ensures Parse(t) == Ok(u) <==> exists f :: Fits(u, f) && t == Render(u, f)
  {
    if Parse(t) == Ok(u) {
      var f := ParseThenRender(t);
    }
    forall f | Fits(u, f) && t == Render(u, f) ensures Parse(t) == Ok(u) {
      RenderThenParse(u, f);
    }
  }

  // ---------- Printing ----------

  /** Every delimiter is printed, whether the part is empty or not, up to an unclosed bracket. */
  function FullForm(u: Url): Form {
    if OpenBracket(u.host) then Form(u.scheme, UserAndPassword, false, NoTail)
    else Form(u.scheme, UserAndPassword, true, PathTail(true, true))
  }

  function Print(u: Url): string {
    Render(u, FullForm(u))
  }

  ghost predicate LowerScheme(s: string) {
    forall k :: 0 <= k < |s| ==> s[k] in LOWERCASE || s[k] in "+-."
  }

  ghost predicate NothingAfterHost(u: Url) {
    u.port == "" && u.path == "" && u.query == "" && u.fragment == ""
  }

  /** The results ParseURL can produce. */
  ghost predicate WellFormed(u: Url) {
    && LowerScheme(u.scheme) && Free(u.userName, ":@/") && Free(u.password, "@/")
    && if OpenBracket(u.host) then NothingAfterHost(u)
       else HostOk(u.host) && Free(u.port, "/") && Free(u.path, "#?") && Free(u.query, "#")
  }

  lemma LowerFixed(s: string)
    requires LowerScheme(s)
    ensures SchemeText(s) && Lowered(s, s)
  {
    forall k | 0 <= k < |s| ensures s[k] !in UPPERCASE {
      LettersAre(s[k]);
    }
  }

  lemma LoweredIsLower(written: string, stored: string)
    requires SchemeText(written) && Lowered(written, stored)
    ensures LowerScheme(stored)
  {
    forall k | 0 <= k < |stored| ensures stored[k] in LOWERCASE || stored[k] in "+-." {
      assert LowerLetter(written[k], stored[k]);
    }
  }

  /** A well-formed URL printed with all its delimiters is parsed back into exactly its parts. */
  lemma PrintThenParse(u: Url)
    requires WellFormed(u)
    ensures Parse(Print(u)) == Ok(u)
  {
    LowerFixed(u.scheme);
    RenderThenParse(u, FullForm(u));
  }

  lemma FitsMeansWellFormed(u: Url, f: Form)
    requires Fits(u, f)
    ensures WellFormed(u)
  {
    LoweredIsLower(f.scheme, u.scheme);
  }

  /** Every Ok result is well formed, and printing it gives a text that parses to it again. */
  lemma ParseThenPrint(t: string)
    requires Parse(t).Ok?
    ensures WellFormed(Parse(t).url)
    ensures Parse(Print(Parse(t).url)) == Parse(t)
  {
    var f := ParseThenRender(t);
    FitsMeansWellFormed(Parse(t).url, f);
    PrintThenParse(Parse(t).url);
  }

  lemma TailErrors(u: Url, t: string)
    ensures ParseTail(u, t).Err? <==> t != "" && t[0] != '/'
    ensures ParseTail(u, t).Err? ==> ParseTail(u, t).error == NoSlash
  {
  }

  lemma HostErrors(u: Url, t: string)
    ensures var n := HostLength(t);
            ParseHost(u, t).Err? <==> n < |t| && t[0] == '[' && t[n] != ':' && t[n] != '/'
    ensures ParseHost(u, t).Err? ==> ParseHost(u, t).error == NoSlash
  {
    var n := HostLength(t);
    var v, rest := u.(host := t[..n]), t[n..];
    if rest != "" && rest[0] == ':' {
      var p := Span(rest[1..], "/");
      TailErrors(v.(port := rest[1..][..p]), rest[1..][p..]);
    } else {
      TailErrors(v, rest);
    }
  }

  // ---------- When each error is returned ----------

  ghost predicate SplitsAtColon(t: string, scheme: string, rest: string) {
    t == scheme + ":" + rest && ':' !in scheme
  }

  /** The authority `a` is user information followed by `host`, where `info` includes the '@'. */
  ghost predicate InfoThenHost(a: string, info: string, host: string) {
    && a == info + host
    && if info == "" then !HasUserInfo(a) else info[|info| - 1] == '@' && Free(info[..|info| - 1], "@/")
  }

  /** A bracketed host, closed by its first ']', followed by `rest`. */
  ghost predicate BracketThen(h: string, inner: string, rest: string) {
    h == "[" + inner + "]" + rest && ']' !in inner
  }

  ghost predicate BadAfterBracket(a: string) {
    exists info, host, inner, rest ::
      InfoThenHost(a, info, host) && BracketThen(host, inner, rest) && rest != "" && rest[0] != ':' && rest[0] != '/'
  }

  lemma ColonSplit(t: string, scheme: string, rest: string)
    requires SplitsAtColon(t, scheme, rest)
    ensures var n := Span(t, ":"); n == |scheme| < |t| && t[..n] == scheme && t[n + 1..] == rest
  {
    assert t == scheme + (":" + rest);
    SpanIs(scheme, ":" + rest, ":");
  }

  lemma ColonFound(t: string) returns (scheme: string, rest: string)
    requires ':' in t
    ensures SplitsAtColon(t, scheme, rest)
  {
    var n := Span(t, ":");
    scheme, rest := t[..n], t[n + 1..];
  }

  /** What comes before the authority decides among the first three errors. */
  lemma SchemeErrors(t: string, scheme: string, rest: string)
    requires SplitsAtColon(t, scheme, rest)
    ensures SplitScheme(t)
         == if !SchemeValid(scheme) then Bad(InvalidSchemeName)
            else if !("//" <= rest) then Bad(NoDoubleSlash)
            else Start(Lower(scheme), rest[2..])
  {
    ColonSplit(t, scheme, rest);
    if "//" <= rest {
      assert t[|scheme| + 3..] == rest[2..];
    }
  }

  lemma BracketEnd(h: string, inner: string, rest: string)
    requires BracketThen(h, inner, rest)
    ensures h[0] == '[' && HostLength(h) == |inner| + 2 && h[|inner| + 2..] == rest
  {
    var open := "[" + inner;
    assert h == open + ("]" + rest);
    assert forall k :: 0 < k < |open| ==> open[k] == inner[k - 1];
    SpanIs(open, "]" + rest, "]");
  }

  lemma BracketFound(h: string) returns (inner: string, rest: string)
    requires h != "" && h[0] == '[' && HostLength(h) < |h|
    ensures BracketThen(h, inner, rest) && rest == h[HostLength(h)..]
  {
    var m := Span(h, "]");
    inner, rest := h[1..m], h[m + 1..];
    assert forall k :: 0 <= k < |inner| ==> inner[k] == h[k + 1];
  }

  lemma InfoIsSplit(a: string, info: string, host: string)
    requires InfoThenHost(a, info, host)
    ensures SplitInfo(a).rest == host
  {
    if info != "" {
      var x := info[..|info| - 1];
      assert a == x + ("@" + host);
      SpanIs(x, "@" + host, "@/");
      assert a[|x| + 1..] == host;
    } else {
      assert a == host;
    }
  }

  lemma InfoFound(a: string) returns (info: string)
    ensures InfoThenHost(a, info, SplitInfo(a).rest)
  {
    if HasUserInfo(a) {
      var n := Span(a, "@/");
      info := a[..n + 1];
      assert info[..|info| - 1] == a[..n];
    } else {
      info := "";
    }
  }

  lemma AuthorityErrors(u: Url, a: string)
    ensures ParseAuthority(u, a).Err? <==> BadAfterBracket(a)
    ensures ParseAuthority(u, a).Err? ==> ParseAuthority(u, a).error == NoSlash
  {
    var i := SplitInfo(a);
    var h := i.rest;
    HostErrors(u.(userName := i.userName, password := i.password), h);
    if ParseAuthority(u, a).Err? {
      var info := InfoFound(a);
      var inner, rest := BracketFound(h);
      assert BadAfterBracket(a);
    }
    if BadAfterBracket(a) {
      var info, host, inner, rest :|
        InfoThenHost(a, info, host) && BracketThen(host, inner, rest) && rest != "" && rest[0] != ':' && rest[0] != '/';
      InfoIsSplit(a, info, host);
      BracketEnd(host, inner, rest);
    }
  }

  /** Exactly when ParseURL returns each error, for a text with a ':'; in particular NoAtSign is never
      returned, and NoSlash means a closed bracket host followed by something other than ':', '/' or
      the end. */
  lemma ParseErrors(t: string, scheme: string, rest: string)
    requires SplitsAtColon(t, scheme, rest)
    ensures Parse(t) != Err(NoUrlCharacter) && Parse(t) != Err(NoAtSign)
    ensures Parse(t) == Err(InvalidSchemeName) <==> !SchemeText(scheme)
    ensures Parse(t) == Err(NoDoubleSlash) <==> SchemeText(scheme) && !("//" <= rest)
    ensures Parse(t) == Err(NoSlash) <==> SchemeText(scheme) && "//" <= rest && BadAfterBracket(rest[2..])
  {
    SchemeTextIs(scheme);
    SchemeErrors(t, scheme, rest);
    if SchemeText(scheme) && "//" <= rest {
      AuthorityErrors(EMPTY.(scheme := Lower(scheme)), rest[2..]);
    }
  }

  lemma NoColonError(t: string)
    ensures Parse(t) == Err(NoUrlCharacter) <==> ':' !in t
  {
    if ':' in t {
      var scheme, rest := ColonFound(t);
      ParseErrors(t, scheme, rest);
    }
  }
}
