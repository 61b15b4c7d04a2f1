/** Query strings: the one-pass scanner with npos sentinels, and what it means. */
module QueryString {
  import opened SeqFacts
  import opened UrlText
  import opened Percent

  /** A decoded parameter. The multimap of the source keeps these; they are listed here in the order
      they are inserted. */
  datatype Param = Param(name: string, value: string)

  // ---------- Specification: split on '&', then on the last '=' ----------

  function Pieces(q: string): (r: seq<string>)
    ensures r != []
    decreases |q|
  {
    var n := Span(q, "&");
    if n == |q| then [q] else [q[..n]] + Pieces(q[n + 1..])
  }

  /** The position of the last '=', or the length. */
  function LastEquals(p: string): (n: nat)
    ensures n <= |p|
    ensures n < |p| ==> p[n] == '=' && forall k :: n < k < |p| ==> p[k] != '='
    ensures n == |p| ==> '=' !in p
  {
    if p == "" then 0
    else if p[|p| - 1] == '=' then |p| - 1
    else
      var n := LastEquals(p[..|p| - 1]);
      if n == |p| - 1 then |p| else n
  }

  function Name(p: string): string {
    p[..LastEquals(p)]
  }

  function RawValue(p: string): string {
    var n := LastEquals(p);
    if n < |p| then p[n + 1..] else ""
  }

  function Keep(p: string): seq<Param> {
    if Name(p) == "" then [] else [Param(Name(p), Decode(RawValue(p)))]
  }

  function KeepAll(ps: seq<string>): seq<Param> {
    if ps == [] then [] else Keep(ps[0]) + KeepAll(ps[1..])
  }

  function ParseQuery(q: string): seq<Param> {
    KeepAll(Pieces(q))
  }

  // ---------- The scanner ----------

  const NPOS: nat := 0xFFFF_FFFF_FFFF_FFFF

  /** Subtraction of 64-bit unsigned numbers. */
  function Sub64(a: nat, b: nat): nat {
    (a - b) % (NPOS + 1)
  }

  /** std::string::substr; a position past the end would throw. */
  function Substr(s: string, pos: nat, n: nat): string
    requires pos <= |s|
  {
    if n < |s| - pos then s[pos..pos + n] else s[pos..]
  }

  lemma PiecesStep(q: string, c: nat)
    requires c < |q| && q[c] == '&' && '&' !in q[..c]
    ensures KeepAll(Pieces(q)) == Keep(q[..c]) + KeepAll(Pieces(q[c + 1..]))
  {
    SpanIs(q[..c], q[c..], "&");
    assert q == q[..c] + q[c..];
    assert Pieces(q)[1..] == Pieces(q[c + 1..]);
  }

  lemma FirstPiece(first: string, rest: string)
    requires '&' !in first
    ensures ParseQuery(first + "&" + rest) == Keep(first) + ParseQuery(rest)
  {
    var q, c := first + "&" + rest, |first|;
    assert q[..c] == first && q[c + 1..] == rest;
    PiecesStep(q, c);
  }

  lemma PiecesEnd(q: string)
    requires '&' !in q
    ensures KeepAll(Pieces(q)) == Keep(q)
  {
  }

  lemma LastEqualsIs(p: string, n: nat)
    requires if n < |p| then p[n] == '=' && '=' !in p[n + 1..] else n == |p| && '=' !in p
    ensures LastEquals(p) == n
  {
  }

  /** What the scanner knows about the piece it is in: it starts at `namePos`, has no '&', and its last
      '=' so far is at `nameEnd`, or there is none and both sentinels stand. */
  ghost predicate Scanning(q: string, c: nat, namePos: nat, nameEnd: nat, valuePos: nat) {
    && namePos <= c <= |q|
    && '&' !in q[namePos..c]
    && if nameEnd == NPOS
       then valuePos == NPOS && '=' !in q[namePos..c]
       else namePos <= nameEnd < c && q[nameEnd] == '=' && valuePos == nameEnd + 1 && '=' !in q[nameEnd + 1..c]
  }

  lemma Sub64Exact(a: nat, b: nat)
    requires b <= a <= NPOS
    ensures Sub64(a, b) == a - b
  {
  }

  lemma PieceParts(q: string, c: nat, namePos: nat, nameEnd: nat, valuePos: nat)
    requires |q| < NPOS && Scanning(q, c, namePos, nameEnd, valuePos)
    ensures var p := q[namePos..c];
            if nameEnd == NPOS then Name(p) == p && RawValue(p) == ""
            else Name(p) == q[namePos..nameEnd] && RawValue(p) == q[valuePos..c]
  {
  }

  /** The name and value the scanner cuts out at an '&' are those of the piece. */
  lemma CutsPiece(q: string, c: nat, namePos: nat, nameEnd: nat, valuePos: nat)
    requires |q| < NPOS && Scanning(q, c, namePos, nameEnd, valuePos)
    ensures Substr(q, namePos, Sub64(if nameEnd == NPOS then c else nameEnd, namePos)) == Name(q[namePos..c])
    ensures (if valuePos == NPOS then "" else Substr(q, valuePos, Sub64(c, valuePos))) == RawValue(q[namePos..c])
  {
    PieceParts(q, c, namePos, nameEnd, valuePos);
    Sub64Exact(if nameEnd == NPOS then c else nameEnd, namePos);
    if valuePos != NPOS {
      Sub64Exact(c, valuePos);
    }
  }

  /** So are those it cuts out at the end, where the sentinel makes substr take all that is left. */
  lemma CutsLastPiece(q: string, namePos: nat, nameEnd: nat, valuePos: nat)
    requires |q| < NPOS && Scanning(q, |q|, namePos, nameEnd, valuePos)
    ensures Substr(q, namePos, Sub64(nameEnd, namePos)) == Name(q[namePos..])
    ensures (if valuePos >= |q| then "" else Substr(q, valuePos, NPOS)) == RawValue(q[namePos..])
  {
    PieceParts(q, |q|, namePos, nameEnd, valuePos);
    assert q[namePos..|q|] == q[namePos..];
    Sub64Exact(nameEnd, namePos);
  }

  lemma ScanNext(q: string, c: nat, namePos: nat, nameEnd: nat, valuePos: nat)
    requires |q| < NPOS && Scanning(q, c, namePos, nameEnd, valuePos) && c < |q|
    ensures q[c] != '&' && q[c] != '=' ==> Scanning(q, c + 1, namePos, nameEnd, valuePos)
    ensures q[c] == '=' ==> Scanning(q, c + 1, namePos, c, c + 1)
    ensures Scanning(q, c + 1, c + 1, NPOS, NPOS)
  {
  }

  lemma ScanPiece(q: string, c: nat, namePos: nat)
    requires namePos <= c < |q| && q[c] == '&' && '&' !in q[namePos..c]
    ensures ParseQuery(q[namePos..]) == Keep(q[namePos..c]) + ParseQuery(q[c + 1..])
  {
    var s, n := q[namePos..], c - namePos;
    assert s[..n] == q[namePos..c] && s[n + 1..] == q[c + 1..] && s[n] == '&';
    PiecesStep(s, n);
  }

  /** The block run at an '&': the parameter between `namePos` and `c`, if it has a name. */
  method AtAmpersand(q: string, c: nat, namePos: nat, nameEnd: nat, valuePos: nat) returns (found: seq<Param>)
    requires |q| < NPOS && Scanning(q, c, namePos, nameEnd, valuePos)
    ensures found == Keep(q[namePos..c])
  {
    CutsPiece(q, c, namePos, nameEnd, valuePos);
    found := [];
    var name := Substr(q, namePos, Sub64(if nameEnd == NPOS then c else nameEnd, namePos));
    if name != "" {
      var value := if valuePos == NPOS then "" else Substr(q, valuePos, Sub64(c, valuePos));
      found := [Param(name, Decode(value))];
    }
  }

  /** The block run after the loop. */
  method AtEnd(q: string, namePos: nat, nameEnd: nat, valuePos: nat) returns (found: seq<Param>)
    requires |q| < NPOS && Scanning(q, |q|, namePos, nameEnd, valuePos)
    ensures found == ParseQuery(q[namePos..])
  {
    CutsLastPiece(q, namePos, nameEnd, valuePos);
    assert q[namePos..|q|] == q[namePos..];
    PiecesEnd(q[namePos..]);
    found := [];
    if namePos < |q| {
      var name := Substr(q, namePos, Sub64(nameEnd, namePos));
      if name != "" {
        var value := if valuePos >= |q| then "" else Substr(q, valuePos, NPOS);
        found := [Param(name, Decode(value))];
      }
    }
  }

  /** The loop invariant: what is found so far, with what the rest will give, is the whole result. */
  ghost predicate Progress(q: string, c: nat, result: seq<Param>, namePos: nat, nameEnd: nat, valuePos: nat) {
    Scanning(q, c, namePos, nameEnd, valuePos) && ParseQuery(q) == result + ParseQuery(q[namePos..])
  }

  lemma ProgressPiece(q: string, c: nat, result: seq<Param>, namePos: nat, nameEnd: nat, valuePos: nat)
    requires |q| < NPOS && Progress(q, c, result, namePos, nameEnd, valuePos) && c < |q| && q[c] == '&'
    ensures Progress(q, c + 1, result + Keep(q[namePos..c]), c + 1, NPOS, NPOS)
  {
    ScanNext(q, c, namePos, nameEnd, valuePos);
    ScanPiece(q, c, namePos);
    Moved(result, Keep(q[namePos..c]), ParseQuery(q[c + 1..]));
  }

  lemma ProgressChar(q: string, c: nat, result: seq<Param>, namePos: nat, nameEnd: nat, valuePos: nat)
    requires |q| < NPOS && Progress(q, c, result, namePos, nameEnd, valuePos) && c < |q| && q[c] != '&'
    ensures if q[c] == '=' then Progress(q, c + 1, result, namePos, c, c + 1)
            else Progress(q, c + 1, result, namePos, nameEnd, valuePos)
  {
    ScanNext(q, c, namePos, nameEnd, valuePos);
  }

  /** The loop body: what character c adds to the result and how it moves the three positions. */
  method AtChar(q: string, c: nat, result: seq<Param>, namePos: nat, nameEnd: nat, valuePos: nat)
    returns (result': seq<Param>, namePos': nat, nameEnd': nat, valuePos': nat)
    requires |q| < NPOS && Progress(q, c, result, namePos, nameEnd, valuePos) && c < |q|
    ensures Progress(q, c + 1, result', namePos', nameEnd', valuePos')
  {
    result', namePos', nameEnd', valuePos' := result, namePos, nameEnd, valuePos;
    if q[c] == '&' {
      ProgressPiece(q, c, result, namePos, nameEnd, valuePos);
      var found := AtAmpersand(q, c, namePos, nameEnd, valuePos);
      result' := result + found;
      namePos', nameEnd', valuePos' := c + 1, NPOS, NPOS;
    } else {
      ProgressChar(q, c, result, namePos, nameEnd, valuePos);
      if q[c] == '=' {
        nameEnd', valuePos' := c, c + 1;
      }
    }
  }

  lemma ProgressStart(q: string)
    ensures Progress(q, 0, [], 0, NPOS, NPOS)
  {
  }

  /** The one-pass scan yields what splitting yields. */
  method ParseQueryString(q: string) returns (result: seq<Param>)
    requires |q| < NPOS
    ensures result == ParseQuery(q)
    ensures forall ps :: AllWritten(ps) && Query(ps) == q ==> result == ReadAll(ps)
  {
    forall ps | AllWritten(ps) && Query(ps) == q ensures ParseQuery(q) == ReadAll(ps) {
      PiecesAreRead(ps);
    }
    result := [];
    if q == "" {
      PiecesEnd(q);
      return;
    }
    var namePos: nat, nameEnd: nat, valuePos: nat := 0, NPOS, NPOS;
    ProgressStart(q);
    for c := 0 to |q|
      invariant Progress(q, c, result, namePos, nameEnd, valuePos)
    {
      result, namePos, nameEnd, valuePos := AtChar(q, c, result, namePos, nameEnd, valuePos);
    }
    var found := AtEnd(q, namePos, nameEnd, valuePos);
    result := result + found;
  }

  // ---------- Raw queries ----------

  /** A piece between two '&', as it is written: without a '=', or cut at its last one. */
  datatype Piece = Bare(text: string) | Pair(name: string, raw: string) {
    ghost predicate Written() {
      match this
      case Bare(t) => '&' !in t && '=' !in t
      case Pair(n, r) => '&' !in n && '&' !in r && '=' !in r
    }

    function Text(): string {
      match this
      case Bare(t) => t
      case Pair(n, r) => n + "=" + r
    }

    /** What the piece stands for: a name alone has an empty value, and a piece without a name is dropped. */
    function Read(): seq<Param> {
      match this
      case Bare(t) => if t == "" then [] else [Param(t, "")]
      case Pair(n, r) => if n == "" then [] else [Param(n, Decode(r))]
    }
  }

  function Query(ps: seq<Piece>): string {
    if ps == [] then ""
    else if |ps| == 1 then ps[0].Text()
    else ps[0].Text() + "&" + Query(ps[1..])
  }

  function ReadAll(ps: seq<Piece>): seq<Param> {
    if ps == [] then [] else ps[0].Read() + ReadAll(ps[1..])
  }

  ghost predicate AllWritten(ps: seq<Piece>) {
    forall k :: 0 <= k < |ps| ==> ps[k].Written()
  }

  lemma PieceIsKept(p: Piece)
    requires p.Written()
    ensures '&' !in p.Text() && Keep(p.Text()) == p.Read()
  {
    var t := p.Text();
    match p
    case Bare(_) =>
      LastEqualsIs(t, |t|);
      assert t[..|t|] == t;
    case Pair(n, r) =>
      assert t[|n| + 1..] == r && t[..|n|] == n;
      LastEqualsIs(t, |n|);
  }

  lemma {:induction false} PiecesAreRead(ps: seq<Piece>)
    requires AllWritten(ps)
    ensures ParseQuery(Query(ps)) == ReadAll(ps)
  {
    if ps == [] {
      PiecesEnd("");
    } else {
      PieceIsKept(ps[0]);
      if |ps| == 1 {
        PiecesEnd(ps[0].Text());
        assert ps[1..] == [];
      } else {
        PiecesAreRead(ps[1..]);
        FirstPiece(ps[0].Text(), Query(ps[1..]));
      }
    }
  }

  lemma PieceOf(t: string) returns (p: Piece)
    requires '&' !in t
    ensures p.Written() && p.Text() == t
  {
    var n := LastEquals(t);
    if n == |t| {
      p := Bare(t);
    } else {
      p := Pair(t[..n], t[n + 1..]);
      assert t == t[..n] + "=" + t[n + 1..];
    }
  }

  lemma {:induction false} EveryQueryIsPieces(q: string) returns (ps: seq<Piece>)
    ensures ps != [] && AllWritten(ps) && Query(ps) == q
    decreases |q|
  {
    var n := Span(q, "&");
    var p := PieceOf(q[..n]);
    if n == |q| {
      ps := [p];
    } else {
      var rest := EveryQueryIsPieces(q[n + 1..]);
      ps := [p] + rest;
      assert ps[1..] == rest && q == q[..n] + "&" + q[n + 1..];
    }
  }

  /** What any query means: it is pieces joined by '&', in exactly one meaning, and each piece is read by
      itself, in order. */
  lemma QueryExactly(q: string, result: seq<Param>)
    ensures ParseQuery(q) == result <==> exists ps :: AllWritten(ps) && Query(ps) == q && ReadAll(ps) == result
  {
    var ps := EveryQueryIsPieces(q);
    PiecesAreRead(ps);
    forall qs | AllWritten(qs) && Query(qs) == q ensures ParseQuery(q) == ReadAll(qs) {
      PiecesAreRead(qs);
    }
  }

  /** A value that is written as it is. */
  ghost predicate Plain(v: string) {
    '%' !in v && '+' !in v && '&' !in v && '=' !in v
  }

  function AsPairs(ps: seq<Param>): (r: seq<Piece>)
    ensures |r| == |ps| && forall i :: 0 <= i < |ps| ==> r[i] == Pair(ps[i].name, ps[i].value)
  {
    seq(|ps|, i requires 0 <= i < |ps| => Pair(ps[i].name, ps[i].value))
  }

  lemma {:induction false} PlainPairsAreRead(ps: seq<Param>)
    requires forall i :: 0 <= i < |ps| ==> ps[i].name != "" && '%' !in ps[i].value && '+' !in ps[i].value
    ensures ReadAll(AsPairs(ps)) == ps
  {
    if ps != [] {
      DecodePlain(ps[0].value);
      assert Decode(ps[0].value) == ps[0].value;
      assert AsPairs(ps)[1..] == AsPairs(ps[1..]);
      PlainPairsAreRead(ps[1..]);
      assert ps == [ps[0]] + ps[1..];
    }
  }

  /** Plain values come back unchanged. */
  lemma RawRoundTrip(ps: seq<Param>)
    requires forall i :: 0 <= i < |ps| ==> GoodName(ps[i].name) && Plain(ps[i].value)
    ensures ParseQuery(Query(AsPairs(ps))) == ps
  {
    PiecesAreRead(AsPairs(ps));
    PlainPairsAreRead(ps);
  }

  // ---------- The round trip ----------

  function Show(p: Param): string {
    p.name + "=" + Encode(p.value)
  }

  function Join(ps: seq<Param>): string {
    if ps == [] then ""
    else if |ps| == 1 then Show(ps[0])
    else Show(ps[0]) + "&" + Join(ps[1..])
  }

  ghost predicate GoodName(n: string) {
    n != "" && '&' !in n
  }

  /** What a parameter has become after one trip through encoder and decoder. */
  function Recoded(ps: seq<Param>): (r: seq<Param>)
    ensures |r| == |ps|
    ensures forall i :: 0 <= i < |ps| ==> r[i] == Param(ps[i].name, Decode(Encode(ps[i].value)))
  {
    if ps == [] then [] else [Param(ps[0].name, Decode(Encode(ps[0].value)))] + Recoded(ps[1..])
  }

  lemma ShowIsPiece(p: Param)
    requires GoodName(p.name)
    ensures '&' !in Show(p) && Keep(Show(p)) == [Param(p.name, Decode(Encode(p.value)))]
  {
    EncodedIsDelimiterFree(p.value);
    var s := Show(p);
    assert s[|p.name| + 1..] == Encode(p.value) && s[..|p.name|] == p.name;
    LastEqualsIs(s, |p.name|);
  }

  lemma {:induction false} JoinThenParse(ps: seq<Param>)
    requires forall i :: 0 <= i < |ps| ==> GoodName(ps[i].name)
    ensures ParseQuery(Join(ps)) == Recoded(ps)
  {
    if ps == [] {
      PiecesEnd("");
    } else {
      ShowIsPiece(ps[0]);
      if |ps| == 1 {
        PiecesEnd(Show(ps[0]));
        assert ps[1..] == [];
      } else {
        JoinThenParse(ps[1..]);
        FirstPiece(Show(ps[0]), Join(ps[1..]));
      }
    }
  }

  lemma {:induction false} ParsedNamesAreGood(ps: seq<string>, i: nat)
    requires forall k :: 0 <= k < |ps| ==> '&' !in ps[k]
    requires i < |KeepAll(ps)|
    ensures GoodName(KeepAll(ps)[i].name)
  {
    if i >= |Keep(ps[0])| {
      ParsedNamesAreGood(ps[1..], i - |Keep(ps[0])|);
    }
  }

  lemma {:induction false} PiecesHaveNoAmpersand(q: string)
    ensures forall k :: 0 <= k < |Pieces(q)| ==> '&' !in Pieces(q)[k]
    decreases |q|
  {
    var n := Span(q, "&");
    if n < |q| {
      PiecesHaveNoAmpersand(q[n + 1..]);
    }
  }

  lemma ReturnedNamesAreGood(ps: seq<Param>, i: nat)
    requires ParseQuery(Join(ps)) == ps && i < |ps|
    ensures GoodName(ps[i].name)
  {
    PiecesHaveNoAmpersand(Join(ps));
    ParsedNamesAreGood(Pieces(Join(ps)), i);
  }

  lemma RecodedIsSameIff(ps: seq<Param>)
    ensures Recoded(ps) == ps <==> forall i :: 0 <= i < |ps| ==> Survives(ps[i].value)
  {
    forall i | 0 <= i < |ps| ensures Recoded(ps)[i] == ps[i] <==> Survives(ps[i].value) {
      RoundTrip(ps[i].value);
    }
  }

  /** Parsing a query built from parameters returns exactly those parameters if and only if every name
      is non-empty and free of '&' and every value survives percent encoding. */
  lemma QueryRoundTrip(ps: seq<Param>)
    ensures ParseQuery(Join(ps)) == ps
       <==> forall i :: 0 <= i < |ps| ==> GoodName(ps[i].name) && Survives(ps[i].value)
  {
    if ParseQuery(Join(ps)) == ps {
      forall i | 0 <= i < |ps| ensures GoodName(ps[i].name) {
        ReturnedNamesAreGood(ps, i);
      }
    }
    RecodedIsSameIff(ps);
    if forall i :: 0 <= i < |ps| ==> GoodName(ps[i].name) {
      JoinThenParse(ps);
    }
  }

  /** parse_target: the path before the first '?' and the query after it; without a '?' the query
      variable keeps what it held. */
  method ParseTarget(target: string, query0: string) returns (path: string, query: string)
    ensures '?' !in path
    ensures if '?' in target then target == path + "?" + query else target == path && query == query0
  {
    var start := Span(target, "?");
    query := query0;
    if start < |target| {
      path, query := target[..start], target[start + 1..];
    } else {
      path := target;
    }
  }
}
