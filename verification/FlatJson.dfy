/** The fast path for JSON request bodies: an object whose members are all scalars and whose strings have no
    escapes. Characters stand for bytes. */
module FlatJson {
  import opened Collections
  import opened Identifiers

  // ---------------------------------------------------------------- the grammar (RFC 8259)

  /** Section 2: insignificant whitespace. */
  predicate IsWs(c: char) {
    c == ' ' || c == '\t' || c == '\n' || c == '\r'
  }

  predicate AllWs(s: string) {
    forall i | 0 <= i < |s| :: IsWs(s[i])
  }

  predicate IsDigit(c: char) {
    '0' <= c <= '9'
  }

  predicate AllDigits(s: string) {
    s != "" && forall i | 0 <= i < |s| :: IsDigit(s[i])
  }

  /** Section 6: int, frac and exp. */
  predicate IsInt(t: string) {
    t == "0" || (AllDigits(t) && t[0] != '0')
  }

  predicate IsFrac(t: string) {
    t == "" || (t[0] == '.' && AllDigits(t[1..]))
  }

  predicate IsExp(t: string) {
    t == "" || ((t[0] == 'e' || t[0] == 'E') && IsExpTail(t[1..]))
  }

  predicate IsExpTail(t: string) {
    AllDigits(t) || (t != "" && (t[0] == '+' || t[0] == '-') && AllDigits(t[1..]))
  }

  ghost predicate IsNumber(t: string) {
    exists m: string, i: string, f: string, e: string :: NumberParts(t, m, i, f, e)
  }

  ghost predicate NumberParts(t: string, m: string, i: string, f: string, e: string) {
    (m == "" || m == "-") && IsInt(i) && IsFrac(f) && IsExp(e) && t == m + (i + (f + e))
  }

  /** Section 7, without escapes: no quote, no backslash, no control character. */
  predicate IsPlain(c: char) {
    c as int >= 0x20 && c != '"' && c != '\\'
  }

  predicate AllPlain(s: string) {
    forall i | 0 <= i < |s| :: IsPlain(s[i])
  }

  /** The classes by the codes that RFC 8259 gives: ws in section 2, digits in section 6, unescaped in section 7. */
  lemma CharacterCodes(c: char)
    ensures IsWs(c) <==> c as int == 0x20 || c as int == 0x09 || c as int == 0x0A || c as int == 0x0D
    ensures IsDigit(c) <==> 0x30 <= c as int <= 0x39
    ensures IsPlain(c) <==> 0x20 <= c as int <= 0x21 || 0x23 <= c as int <= 0x5B || 0x5D <= c as int
  {
  }

  datatype Scalar = Str(chars: string) | Num(token: string) | True | False | Null

  ghost predicate ValidScalar(v: Scalar) {
    match v
    case Str(chars) => AllPlain(chars)
    case Num(token) => IsNumber(token)
    case _ => true
  }

  function Quoted(chars: string): string {
    "\"" + chars + "\""
  }

  function ScalarText(v: Scalar): string {
    match v
    case Str(chars) => Quoted(chars)
    case Num(token) => token
    case True => "true"
    case False => "false"
    case Null => "null"
  }

  /** Section 4: a member with the whitespace around its parts. */
  datatype Member = Member(w1: string, key: string, w2: string, w3: string, value: Scalar, w4: string)

  ghost predicate ValidMember(m: Member) {
    AllWs(m.w1) && AllPlain(m.key) && AllWs(m.w2) && AllWs(m.w3) && ValidScalar(m.value) && AllWs(m.w4)
  }

  function MemberText(m: Member): string {
    m.w1 + Quoted(m.key) + m.w2 + ":" + m.w3 + ScalarText(m.value) + m.w4
  }

  function MembersText(ms: seq<Member>): string {
    if ms == [] then "" else if |ms| == 1 then MemberText(ms[0]) else MemberText(ms[0]) + "," + MembersText(ms[1..])
  }

  /** `inner` is the whitespace of an object without members. */
  datatype Document = Document(lead: string, members: seq<Member>, inner: string, trail: string)

  ghost predicate ValidDocument(d: Document) {
    && AllWs(d.lead) && AllWs(d.inner) && AllWs(d.trail)
    && (forall i | 0 <= i < |d.members| :: ValidMember(d.members[i]))
  }

  function BodyText(ms: seq<Member>, inner: string): string {
    if ms == [] then inner else MembersText(ms)
  }

  function DocumentText(d: Document): string {
    d.lead + ("{" + (BodyText(d.members, d.inner) + ("}" + d.trail)))
  }

  // ---------------------------------------------------------------- the decoding

  /** What the handler binds: the text of the value, its exact JSON token, and whether it was null. */
  datatype Field = Field(value: string, json: string, explicitNull: bool)

  type Fields = map<string, Field>

  function FieldOf(v: Scalar): Field {
    var value := match v case Str(chars) => chars case Num(token) => token case True => "true" case False => "false" case Null => "";
    Field(value, ScalarText(v), v.Null?)
  }

  /** Names are compared without case, and a later member replaces an earlier one. */
  function Decode(ms: seq<Member>, fields: Fields): Fields {
    if ms == [] then fields else Decode(ms[1..], fields[Lower(ms[0].key) := FieldOf(ms[0].value)])
  }

  lemma {:induction false} DecodePresent(ms: seq<Member>, fields: Fields, k: string)
    ensures k in Decode(ms, fields) <==> k in fields || exists i | 0 <= i < |ms| :: Lower(ms[i].key) == k
  {
    if ms != [] {
      DecodePresent(ms[1..], fields[Lower(ms[0].key) := FieldOf(ms[0].value)], k);
      assert forall i | 0 < i < |ms| :: ms[i] == ms[1..][i - 1];
    }
  }

  lemma {:induction false} DecodeAbsent(ms: seq<Member>, fields: Fields, k: string)
    requires k in fields && forall i | 0 <= i < |ms| :: Lower(ms[i].key) != k
    ensures k in Decode(ms, fields) && Decode(ms, fields)[k] == fields[k]
  {
    if ms != [] { DecodeAbsent(ms[1..], fields[Lower(ms[0].key) := FieldOf(ms[0].value)], k); }
  }

  lemma {:induction false} DecodeLast(ms: seq<Member>, fields: Fields, k: string, i: nat)
    requires i < |ms| && Lower(ms[i].key) == k && forall j | i < j < |ms| :: Lower(ms[j].key) != k
    ensures k in Decode(ms, fields) && Decode(ms, fields)[k] == FieldOf(ms[i].value)
  {
    var next := fields[Lower(ms[0].key) := FieldOf(ms[0].value)];
    assert forall j | 0 < j < |ms| :: ms[j] == ms[1..][j - 1];
    if i == 0 { DecodeAbsent(ms[1..], next, k); } else { DecodeLast(ms[1..], next, k, i - 1); }
  }

  /** The decoding, name by name: present exactly when a member has that name, with the value of the last one. */
  lemma DecodeIsLastWins(ms: seq<Member>, fields: Fields, k: string)
    ensures k in Decode(ms, fields) <==> k in fields || exists i | 0 <= i < |ms| :: Lower(ms[i].key) == k
    ensures forall i | 0 <= i < |ms| && Lower(ms[i].key) == k && (forall j | i < j < |ms| :: Lower(ms[j].key) != k) ::
      Decode(ms, fields)[k] == FieldOf(ms[i].value)
    ensures k in fields && (forall i | 0 <= i < |ms| :: Lower(ms[i].key) != k) ==> Decode(ms, fields)[k] == fields[k]
  {
    DecodePresent(ms, fields, k);
    forall i | 0 <= i < |ms| && Lower(ms[i].key) == k && (forall j | i < j < |ms| :: Lower(ms[j].key) != k)
      ensures Decode(ms, fields)[k] == FieldOf(ms[i].value)
    {
      DecodeLast(ms, fields, k, i);
    }
    if k in fields && forall i | 0 <= i < |ms| :: Lower(ms[i].key) != k { DecodeAbsent(ms, fields, k); }
  }

  // ---------------------------------------------------------------- the scanner

  function SkipWs(s: string): string {
    if s != "" && IsWs(s[0]) then SkipWs(s[1..]) else s
  }

  function SkipDigits(s: string): string {
    if s != "" && IsDigit(s[0]) then SkipDigits(s[1..]) else s
  }

  function PlainLen(s: string): (n: nat)
    ensures n <= |s|
  {
    if s != "" && IsPlain(s[0]) then 1 + PlainLen(s[1..]) else 0
  }

  /** The characters of a string token at the start of `s`, and what follows it. */
  function ScanString(s: string): Option<(string, string)> {
    if s == "" || s[0] != '"' then None
    else
      var n := PlainLen(s[1..]);
      if n == |s[1..]| || s[1..][n] != '"' then None else Some((s[1..][..n], s[1..][n + 1..]))
  }

  predicate StartsWithDigit(s: string) {
    s != "" && IsDigit(s[0])
  }

  function SkipSign(s: string): string {
    if s != "" && s[0] == '-' then s[1..] else s
  }

  function SkipInt(s: string): Option<string> {
    if !StartsWithDigit(s) then None
    else if s[0] == '0' then if StartsWithDigit(s[1..]) then None else Some(s[1..])
    else Some(SkipDigits(s))
  }

  function SkipFrac(s: string): Option<string> {
    if s == "" || s[0] != '.' then Some(s)
    else if StartsWithDigit(s[1..]) then Some(SkipDigits(s[1..])) else None
  }

  function SkipExpSign(s: string): string {
    if s != "" && (s[0] == '+' || s[0] == '-') then s[1..] else s
  }

  function SkipExp(s: string): Option<string> {
    if s == "" || (s[0] != 'e' && s[0] != 'E') then Some(s)
    else if StartsWithDigit(SkipExpSign(s[1..])) then Some(SkipDigits(SkipExpSign(s[1..]))) else None
  }

  /** What follows the number token at the start of `s`. */
  function SkipNumber(s: string): Option<string> {
    var i := SkipInt(SkipSign(s));
    if i.None? then None
    else
      var f := SkipFrac(i.value);
      if f.None? then None else SkipExp(f.value)
  }

  /** The part of `s` before its suffix `rest`. */
  function Before(s: string, rest: string): string {
    if |rest| <= |s| then s[..|s| - |rest|] else ""
  }

  function ScanValue(s: string): Option<(Scalar, string)> {
    if s == "" then None
    else if s[0] == '"' then
      var r := ScanString(s);
      if r.None? then None else Some((Str(r.value.0), r.value.1))
    else if |s| >= 4 && s[..4] == "null" then Some((Null, s[4..]))
    else if |s| >= 4 && s[..4] == "true" then Some((True, s[4..]))
    else if |s| >= 5 && s[..5] == "false" then Some((False, s[5..]))
    else if s[0] == '-' || IsDigit(s[0]) then
      var rest := SkipNumber(s);
      if rest.None? then None else Some((Num(Before(s, rest.value)), rest.value))
    else None
  }

  /** One turn of the member loop: the member at the start of `s` and what follows its trailing whitespace. */
  function ScanMember(s: string): Option<(string, Scalar, string)> {
    var key := ScanString(SkipWs(s));
    if key.None? then None
    else
      var s2 := SkipWs(key.value.1);
      if s2 == "" || s2[0] != ':' then None
      else
        var v := ScanValue(SkipWs(s2[1..]));
        if v.None? then None else Some((key.value.0, v.value.0, SkipWs(v.value.1)))
  }

  function ScanMembers(s: string, fields: Fields): Option<Fields>
    decreases |s|
  {
    var m := ScanMember(s);
    if m.None? then None
    else
      var (key, v, rest) := m.value;
      ScanMemberShrinks(s);
      var next := fields[Lower(key) := FieldOf(v)];
      if rest != "" && rest[0] == ',' then ScanMembers(rest[1..], next)
      else if rest != "" && rest[0] == '}' then if SkipWs(rest[1..]) == "" then Some(next) else None
      else None
  }

  /** After the opening brace. */
  function ScanBody(s: string): Option<Fields> {
    var t := SkipWs(s);
    if t != "" && t[0] == '}' then if SkipWs(t[1..]) == "" then Some(map[]) else None
    else ScanMembers(t, map[])
  }

  /** `TryExtractFlatJsonObject`. */
  function Extract(body: string): Option<Fields> {
    var s := SkipWs(body);
    if s == "" || s[0] != '{' then None else ScanBody(s[1..])
  }

  // ---------------------------------------------------------------- scanning takes a prefix of the grammar

  lemma {:induction false} SkipWsSplits(s: string) returns (w: string)
    ensures AllWs(w) && s == w + SkipWs(s) && (SkipWs(s) == "" || !IsWs(SkipWs(s)[0]))
    ensures |SkipWs(s)| <= |s|
  {
    if s != "" && IsWs(s[0]) {
      var v := SkipWsSplits(s[1..]);
      w := [s[0]] + v;
    } else {
      w := "";
    }
  }

  lemma {:induction false} SkipWsDrops(w: string, s: string)
    requires AllWs(w) && (s == "" || !IsWs(s[0]))
    ensures SkipWs(w + s) == s
  {
    if w == "" {
      assert w + s == s;
    } else {
      assert (w + s)[1..] == w[1..] + s;
      SkipWsDrops(w[1..], s);
    }
  }

  lemma {:induction false} SkipDigitsTakes(d: string, s: string)
    requires (forall i | 0 <= i < |d| :: IsDigit(d[i])) && !StartsWithDigit(s)
    ensures SkipDigits(d + s) == s
  {
    if d == "" {
      assert d + s == s;
    } else {
      assert (d + s)[1..] == d[1..] + s;
      SkipDigitsTakes(d[1..], s);
    }
  }

  lemma {:induction false} SkipDigitsIs(s: string) returns (d: string)
    ensures s == d + SkipDigits(s) && (forall i | 0 <= i < |d| :: IsDigit(d[i]))
    ensures StartsWithDigit(s) ==> d != "" && d[0] == s[0]
  {
    if StartsWithDigit(s) {
      var more := SkipDigitsIs(s[1..]);
      d := [s[0]] + more;
      assert s == [s[0]] + s[1..];
    } else {
      d := "";
    }
  }

  lemma {:induction false} PlainTakes(d: string, s: string)
    requires AllPlain(d) && (s == "" || !IsPlain(s[0]))
    ensures PlainLen(d + s) == |d|
  {
    if d == "" {
      assert d + s == s;
    } else {
      assert (d + s)[1..] == d[1..] + s;
      PlainTakes(d[1..], s);
    }
  }

  lemma {:induction false} PlainAre(s: string)
    ensures AllPlain(s[..PlainLen(s)])
  {
    if s != "" && IsPlain(s[0]) {
      PlainAre(s[1..]);
      assert forall i | 0 < i < PlainLen(s) :: s[i] == s[1..][..PlainLen(s[1..])][i - 1];
    }
  }

  lemma ScanStringTakes(chars: string, rest: string)
    requires AllPlain(chars)
    ensures ScanString(Quoted(chars) + rest) == Some((chars, rest))
  {
    var s := Quoted(chars) + rest;
    assert s[1..] == chars + ("\"" + rest);
    PlainTakes(chars, "\"" + rest);
    assert s[1..][..|chars|] == chars && s[1..][|chars| + 1..] == rest;
  }

  lemma ScanStringIs(s: string)
    requires ScanString(s).Some?
    ensures var (chars, rest) := ScanString(s).value; AllPlain(chars) && s == Quoted(chars) + rest && |rest| < |s|
  {
    PlainAre(s[1..]);
    var (chars, rest) := ScanString(s).value;
    assert s == [s[0]] + s[1..];
    assert s[1..] == chars + ([s[1..][|chars|]] + rest);
  }

  // ---------------------------------------------------------------- numbers

  /** What can follow a value: whitespace, a comma, a closing brace or nothing. */
  predicate Ends(s: string) {
    s == "" || IsWs(s[0]) || s[0] == ',' || s[0] == '}'
  }

  lemma SignTakes(m: string, s: string)
    requires (m == "" || m == "-") && StartsWithDigit(s)
    ensures SkipSign(m + s) == s
  {
    if m == "" { assert m + s == s; } else { assert (m + s)[1..] == s; }
  }

  lemma IntTakes(i: string, s: string)
    requires IsInt(i) && !StartsWithDigit(s)
    ensures SkipInt(i + s) == Some(s) && StartsWithDigit(i + s)
  {
    if i == "0" { assert (i + s)[1..] == s; } else { SkipDigitsTakes(i, s); }
  }

  lemma FracTakes(f: string, s: string)
    requires IsFrac(f) && !StartsWithDigit(s) && (s == "" || s[0] != '.')
    ensures SkipFrac(f + s) == Some(s) && !StartsWithDigit(f + s)
  {
    if f == "" {
      assert f + s == s;
    } else {
      assert (f + s)[1..] == f[1..] + s;
      SkipDigitsTakes(f[1..], s);
    }
  }

  lemma ExpTailTakes(t: string, s: string)
    requires IsExpTail(t) && !StartsWithDigit(s)
    ensures StartsWithDigit(SkipExpSign(t + s)) && SkipDigits(SkipExpSign(t + s)) == s
  {
    if AllDigits(t) {
      SkipDigitsTakes(t, s);
    } else {
      assert (t + s)[1..] == t[1..] + s;
      SkipDigitsTakes(t[1..], s);
    }
  }

  lemma ExpTakes(e: string, s: string)
    requires IsExp(e) && Ends(s)
    ensures SkipExp(e + s) == Some(s) && !StartsWithDigit(e + s) && (e + s == "" || (e + s)[0] != '.')
  {
    if e == "" {
      assert e + s == s;
    } else {
      assert (e + s)[1..] == e[1..] + s;
      ExpTailTakes(e[1..], s);
    }
  }

  lemma Regroup(m: string, i: string, f: string, e: string, s: string)
    ensures (m + (i + (f + e))) + s == m + (i + (f + (e + s)))
  {
  }

  lemma NumberPartsTake(m: string, i: string, f: string, e: string, s: string)
    requires (m == "" || m == "-") && IsInt(i) && IsFrac(f) && IsExp(e) && Ends(s)
    ensures SkipNumber(m + (i + (f + (e + s)))) == Some(s)
  {
    ExpTakes(e, s);
    FracTakes(f, e + s);
    IntTakes(i, f + (e + s));
    SignTakes(m, i + (f + (e + s)));
  }

  lemma NumberTakes(t: string, s: string)
    requires IsNumber(t) && Ends(s)
    ensures SkipNumber(t + s) == Some(s) && t != "" && (t[0] == '-' || IsDigit(t[0]))
  {
    var m: string, i: string, f: string, e: string :| NumberParts(t, m, i, f, e);
    NumberPartsTake(m, i, f, e, s);
    Regroup(m, i, f, e, s);
    assert t[0] == if m == "" then i[0] else '-';
  }

  lemma IntIs(s: string) returns (i: string)
    requires SkipInt(s).Some?
    ensures IsInt(i) && s == i + SkipInt(s).value
  {
    if s[0] == '0' {
      i := "0";
      assert s == "0" + s[1..];
    } else {
      i := SkipDigitsIs(s);
    }
  }

  lemma FracIs(s: string) returns (f: string)
    requires SkipFrac(s).Some?
    ensures IsFrac(f) && s == f + SkipFrac(s).value
  {
    if s == "" || s[0] != '.' {
      f := "";
    } else {
      var d := SkipDigitsIs(s[1..]);
      f := "." + d;
      assert f[1..] == d && s == "." + s[1..];
    }
  }

  lemma ExpTailIs(s: string) returns (t: string)
    requires StartsWithDigit(SkipExpSign(s))
    ensures IsExpTail(t) && s == t + SkipDigits(SkipExpSign(s))
  {
    var d := SkipDigitsIs(SkipExpSign(s));
    if s[0] == '+' || s[0] == '-' {
      t := [s[0]] + d;
      assert t[1..] == d && s == [s[0]] + s[1..];
    } else {
      t := d;
    }
  }

  lemma ExpIs(s: string) returns (e: string)
    requires SkipExp(s).Some?
    ensures IsExp(e) && s == e + SkipExp(s).value
  {
    if s == "" || (s[0] != 'e' && s[0] != 'E') {
      e := "";
    } else {
      var t := ExpTailIs(s[1..]);
      e := [s[0]] + t;
      assert e[1..] == t && s == [s[0]] + s[1..];
    }
  }

  lemma NumberIs(s: string) returns (t: string)
    requires SkipNumber(s).Some?
    ensures IsNumber(t) && s == t + SkipNumber(s).value && t != "" && t == Before(s, SkipNumber(s).value)
  {
    var m := if s != "" && s[0] == '-' then "-" else "";
    assert s == m + SkipSign(s);
    var i := IntIs(SkipSign(s));
    var f := FracIs(SkipInt(SkipSign(s)).value);
    var e := ExpIs(SkipFrac(SkipInt(SkipSign(s)).value).value);
    t := m + (i + (f + e));
    Regroup(m, i, f, e, SkipNumber(s).value);
    assert NumberParts(t, m, i, f, e);
  }

  // ---------------------------------------------------------------- values

  lemma ScanNumberTakes(token: string, s: string)
    requires IsNumber(token) && Ends(s)
    ensures ScanValue(token + s) == Some((Num(token), s))
  {
    var all := token + s;
    NumberTakes(token, s);
    assert all[0] == token[0] && Before(all, s) == token;
    assert |all| >= 4 ==> all[..4][0] == all[0];
    assert |all| >= 5 ==> all[..5][0] == all[0];
  }

  lemma ScanWordTakes(v: Scalar, s: string)
    requires v.True? || v.False? || v.Null?
    ensures ScanValue(ScalarText(v) + s) == Some((v, s))
  {
    var word, all := ScalarText(v), ScalarText(v) + s;
    assert all[..|word|] == word && all[|word|..] == s && all[0] == word[0];
    assert all[..4][0] == all[0] && all[..4][3] == all[3] && word[3] == all[3];
  }

  lemma ScanValueTakes(v: Scalar, s: string)
    requires ValidScalar(v) && Ends(s)
    ensures ScanValue(ScalarText(v) + s) == Some((v, s))
  {
    match v
    case Str(chars) =>
      ScanStringTakes(chars, s);
      assert (Quoted(chars) + s)[0] == '"';
    case Num(token) => ScanNumberTakes(token, s);
    case _ => ScanWordTakes(v, s);
  }

  lemma ScanValueIs(s: string)
    requires ScanValue(s).Some?
    ensures var (v, rest) := ScanValue(s).value; ValidScalar(v) && s == ScalarText(v) + rest && |rest| < |s|
  {
    if s[0] == '"' {
      ScanStringIs(s);
    } else if !(|s| >= 4 && (s[..4] == "null" || s[..4] == "true")) && !(|s| >= 5 && s[..5] == "false") {
      var t := NumberIs(s);
    }
  }

  lemma ScanMemberShrinks(s: string)
    requires ScanMember(s).Some?
    ensures |ScanMember(s).value.2| < |s|
  {
    var _ := SkipWsSplits(s);
    ScanStringIs(SkipWs(s));
    var r := ScanString(SkipWs(s)).value.1;
    var _ := SkipWsSplits(r);
    var _ := SkipWsSplits(SkipWs(r)[1..]);
    ScanValueIs(SkipWs(SkipWs(r)[1..]));
    var _ := SkipWsSplits(ScanValue(SkipWs(SkipWs(r)[1..])).value.1);
  }

  // ---------------------------------------------------------------- printing, then scanning

  lemma RegroupMember(m: Member, s: string)
    ensures MemberText(m) + s
         == m.w1 + (Quoted(m.key) + (m.w2 + (":" + (m.w3 + (ScalarText(m.value) + (m.w4 + s))))))
  {
  }

  lemma ScalarStarts(v: Scalar)
    requires ValidScalar(v)
    ensures ScalarText(v) != "" && !IsWs(ScalarText(v)[0])
  {
    if v.Num? { NumberTakes(v.token, ""); }
  }

  lemma ScanMemberTakes(m: Member, s: string)
    requires ValidMember(m) && s != "" && (s[0] == ',' || s[0] == '}')
    ensures ScanMember(MemberText(m) + s) == Some((m.key, m.value, s))
  {
    RegroupMember(m, s);
    var a := ScalarText(m.value) + (m.w4 + s);
    var b := m.w2 + (":" + (m.w3 + a));
    ScalarStarts(m.value);
    assert (m.w4 + s)[0] == if m.w4 == "" then s[0] else m.w4[0];
    SkipWsDrops(m.w1, Quoted(m.key) + b);
    ScanStringTakes(m.key, b);
    SkipWsDrops(m.w2, ":" + (m.w3 + a));
    assert (":" + (m.w3 + a))[1..] == m.w3 + a;
    SkipWsDrops(m.w3, a);
    ScanValueTakes(m.value, m.w4 + s);
    SkipWsDrops(m.w4, s);
  }

  lemma ScanLast(s: string, m: Member, trail: string, fields: Fields)
    requires ScanMember(s) == Some((m.key, m.value, "}" + trail)) && AllWs(trail)
    ensures ScanMembers(s, fields) == Some(Decode([m], fields))
  {
    assert ("}" + trail)[1..] == trail && trail + "" == trail;
    SkipWsDrops(trail, "");
    assert [m][1..] == [];
    assert Decode([m], fields) == Decode([], fields[Lower(m.key) := FieldOf(m.value)]);
  }

  lemma ScanMore(s: string, m: Member, rest: string, fields: Fields)
    requires ScanMember(s) == Some((m.key, m.value, "," + rest))
    ensures ScanMembers(s, fields) == ScanMembers(rest, fields[Lower(m.key) := FieldOf(m.value)])
  {
    assert ("," + rest)[1..] == rest;
  }

  lemma MembersTextMore(m: Member, more: seq<Member>, end: string)
    requires more != []
    ensures MembersText([m] + more) + end == MemberText(m) + ("," + (MembersText(more) + end))
  {
    assert ([m] + more)[1..] == more;
  }

  lemma DecodeMore(m: Member, more: seq<Member>, fields: Fields)
    ensures Decode([m] + more, fields) == Decode(more, fields[Lower(m.key) := FieldOf(m.value)])
  {
    assert ([m] + more)[1..] == more;
  }

  lemma {:induction false} ScanMembersTakes(ms: seq<Member>, trail: string, fields: Fields)
    requires ms != [] && AllWs(trail) && forall i | 0 <= i < |ms| :: ValidMember(ms[i])
    ensures ScanMembers(MembersText(ms) + ("}" + trail), fields) == Some(Decode(ms, fields))
    decreases |ms|
  {
    var m, more, end := ms[0], ms[1..], "}" + trail;
    assert ms == [m] + more;
    if more == [] {
      ScanMemberTakes(m, end);
      ScanLast(MemberText(m) + end, m, trail, fields);
    } else {
      var rest := MembersText(more) + end;
      MembersTextMore(m, more, end);
      ScanMemberTakes(m, "," + rest);
      ScanMore(MemberText(m) + ("," + rest), m, rest, fields);
      ScanMembersTakes(more, trail, fields[Lower(m.key) := FieldOf(m.value)]);
      DecodeMore(m, more, fields);
    }
  }

  lemma ScanMembersSkips(s: string, fields: Fields)
    ensures ScanMembers(SkipWs(s), fields) == ScanMembers(s, fields)
  {
    var w := SkipWsSplits(s);
    SkipWsDrops("", SkipWs(s));
    assert "" + SkipWs(s) == SkipWs(s);
  }

  /** The first character of a member list is not a brace. */
  lemma MembersStart(ms: seq<Member>, s: string)
    requires ms != [] && ValidMember(ms[0])
    ensures SkipWs(MembersText(ms) + s) != "" && SkipWs(MembersText(ms) + s)[0] == '"'
  {
    var m := ms[0];
    var tail := if |ms| == 1 then s else "," + (MembersText(ms[1..]) + s);
    assert MembersText(ms) + s == MemberText(m) + tail;
    RegroupMember(m, tail);
    SkipWsDrops(m.w1, Quoted(m.key) + (m.w2 + (":" + (m.w3 + (ScalarText(m.value) + (m.w4 + tail))))));
  }

  lemma ScanBodyTakes(ms: seq<Member>, inner: string, trail: string)
    requires AllWs(inner) && AllWs(trail) && forall i | 0 <= i < |ms| :: ValidMember(ms[i])
    ensures ScanBody(BodyText(ms, inner) + ("}" + trail)) == Some(Decode(ms, map[]))
  {
    var end := "}" + trail;
    if ms == [] {
      SkipWsDrops(inner, end);
      assert end[1..] == trail && trail + "" == trail;
      SkipWsDrops(trail, "");
    } else {
      MembersStart(ms, end);
      ScanMembersSkips(MembersText(ms) + end, map[]);
      ScanMembersTakes(ms, trail, map[]);
    }
  }

  /** Any printing of a flat object is accepted, and decoded. */
  lemma ExtractTakes(d: Document)
    requires ValidDocument(d)
    ensures Extract(DocumentText(d)) == Some(Decode(d.members, map[]))
  {
    var rest := BodyText(d.members, d.inner) + ("}" + d.trail);
    SkipWsDrops(d.lead, "{" + rest);
    assert ("{" + rest)[1..] == rest;
    ScanBodyTakes(d.members, d.inner, d.trail);
  }

  // ---------------------------------------------------------------- scanning, then printing

  lemma ScanMemberIs(s: string) returns (m: Member)
    requires ScanMember(s).Some?
    ensures var (key, v, rest) := ScanMember(s).value;
      ValidMember(m) && m.key == key && m.value == v && s == MemberText(m) + rest
  {
    var (key, v, rest) := ScanMember(s).value;
    var w1 := SkipWsSplits(s);
    ScanStringIs(SkipWs(s));
    var r := ScanString(SkipWs(s)).value.1;
    var w2 := SkipWsSplits(r);
    var c := SkipWs(r);
    assert c == ":" + c[1..];
    var w3 := SkipWsSplits(c[1..]);
    ScanValueIs(SkipWs(c[1..]));
    var w4 := SkipWsSplits(ScanValue(SkipWs(c[1..])).value.1);
    m := Member(w1, key, w2, w3, v, w4);
    RegroupMember(m, rest);
  }

  lemma {:induction false} ScanMembersIs(s: string, fields: Fields) returns (ms: seq<Member>, trail: string)
    requires ScanMembers(s, fields).Some?
    ensures ms != [] && AllWs(trail) && forall i | 0 <= i < |ms| :: ValidMember(ms[i])
    ensures s == MembersText(ms) + ("}" + trail) && ScanMembers(s, fields) == Some(Decode(ms, fields))
    decreases |s|
  {
    var m := ScanMemberIs(s);
    ScanMemberShrinks(s);
    var rest := ScanMember(s).value.2;
    assert rest == [rest[0]] + rest[1..];
    if rest[0] == ',' {
      ScanMore(s, m, rest[1..], fields);
      var more;
      more, trail := ScanMembersIs(rest[1..], fields[Lower(m.key) := FieldOf(m.value)]);
      ms := [m] + more;
      MembersTextMore(m, more, "}" + trail);
      DecodeMore(m, more, fields);
    } else {
      trail := SkipWsSplits(rest[1..]);
      assert rest[1..] == trail;
      ms := [m];
      ScanLast(s, m, trail, fields);
    }
  }

  lemma EmptyBodyIs(s: string) returns (inner: string, trail: string)
    requires ScanBody(s).Some? && SkipWs(s) != "" && SkipWs(s)[0] == '}'
    ensures AllWs(inner) && AllWs(trail) && s == inner + ("}" + trail) && ScanBody(s) == Some(map[])
  {
    inner := SkipWsSplits(s);
    var t := SkipWs(s);
    assert t == "}" + t[1..];
    trail := SkipWsSplits(t[1..]);
    assert t[1..] == trail;
  }

  lemma ScanBodyIs(s: string) returns (ms: seq<Member>, inner: string, trail: string)
    requires ScanBody(s).Some?
    ensures AllWs(inner) && AllWs(trail) && forall i | 0 <= i < |ms| :: ValidMember(ms[i])
    ensures s == BodyText(ms, inner) + ("}" + trail) && ScanBody(s) == Some(Decode(ms, map[]))
  {
    if SkipWs(s) != "" && SkipWs(s)[0] == '}' {
      inner, trail := EmptyBodyIs(s);
      ms := [];
    } else {
      ScanMembersSkips(s, map[]);
      ms, trail := ScanMembersIs(s, map[]);
      inner := "";
    }
  }

  /** Whatever is accepted is a printing of a flat object, and the fields are its decoding. */
  lemma ExtractIs(body: string) returns (d: Document)
    requires Extract(body).Some?
    ensures ValidDocument(d) && DocumentText(d) == body && Extract(body) == Some(Decode(d.members, map[]))
  {
    var lead := SkipWsSplits(body);
    var s := SkipWs(body);
    assert s == "{" + s[1..];
    var ms, inner, trail := ScanBodyIs(s[1..]);
    d := Document(lead, ms, inner, trail);
  }

  /** The fast path accepts a body exactly when it is a flat JSON object in the sense of RFC 8259, sections 2, 4, 6
      and 7 without escapes; and then its fields are the decoding of any way to read it. */
  lemma ExtractAcceptsFlatObjects(body: string)
    ensures Extract(body).Some? <==> exists d :: ValidDocument(d) && DocumentText(d) == body
    ensures forall d | ValidDocument(d) && DocumentText(d) == body :: Extract(body) == Some(Decode(d.members, map[]))
  {
    forall d | ValidDocument(d) && DocumentText(d) == body
      ensures Extract(body) == Some(Decode(d.members, map[]))
    {
      ExtractTakes(d);
    }
    if Extract(body).Some? {
      var d := ExtractIs(body);
    }
  }

  // ---------------------------------------------------------------- what is bound, in terms of the text

  /** The value of a member in the text of all: behind its colon and whitespace. */
  lemma {:induction false} ValueStands(ms: seq<Member>, i: nat) returns (pre: string, post: string)
    requires i < |ms|
    ensures MembersText(ms) == pre + (":" + (ms[i].w3 + (ScalarText(ms[i].value) + post)))
  {
    var m := ms[0];
    var head := m.w1 + Quoted(m.key) + m.w2;
    if i == 0 {
      post := m.w4 + if |ms| == 1 then "" else "," + MembersText(ms[1..]);
      pre := head;
      assert MemberText(m) == head + (":" + (m.w3 + (ScalarText(m.value) + m.w4)));
    } else {
      var before;
      before, post := ValueStands(ms[1..], i - 1);
      pre := MemberText(m) + "," + before;
    }
  }

  /** A name finds a field exactly when a member has that name, whatever the case of either. */
  lemma FoundIff(d: Document, name: string)
    requires ValidDocument(d)
    ensures Extract(DocumentText(d)).Some?
    ensures Lower(name) in Extract(DocumentText(d)).value <==>
      exists i | 0 <= i < |d.members| :: Respelled(d.members[i].key, name)
  {
    ExtractTakes(d);
    DecodeIsLastWins(d.members, map[], Lower(name));
    forall i | 0 <= i < |d.members| ensures Lower(d.members[i].key) == Lower(name) <==> Respelled(d.members[i].key, name) {
      SameIdentifierIff(d.members[i].key, name);
    }
  }

  /** The first character of a value's text tells its kind. */
  lemma TextTells(v: Scalar)
    requires ValidScalar(v)
    ensures ScalarText(v) != "" && (ScalarText(v)[0] == '"' <==> v.Str?) && (ScalarText(v) == "null" <==> v.Null?)
  {
    if v.Num? { NumberStarts(v.token); }
  }

  lemma NumberStarts(token: string)
    requires IsNumber(token)
    ensures token != "" && (token[0] == '-' || IsDigit(token[0]))
  {
    var m: string, i: string, f: string, e: string :| NumberParts(token, m, i, f, e);
    if m == "" {
      assert token == i + (f + e) && token[0] == i[0];
    }
  }

  /** What is bound for the last member of a name: the exact text of its value; a null if and only if that text is null;
      and as value the text between the quotes of a string, nothing for a null, and the token itself otherwise. */
  lemma BoundByText(d: Document, i: nat)
    requires ValidDocument(d) && i < |d.members|
    requires forall j | i < j < |d.members| :: !Respelled(d.members[j].key, d.members[i].key)
    ensures var fields := Extract(DocumentText(d)); var k := Lower(d.members[i].key);
      && fields.Some? && k in fields.value
      && var f, text := fields.value[k], ScalarText(d.members[i].value);
      && f.json == text && text != "" && (f.explicitNull <==> text == "null")
      && (text[0] == '"' ==> text == "\"" + f.value + "\"")
      && (text == "null" ==> f.value == "")
      && (text[0] != '"' && text != "null" ==> f.value == text)
  {
    FoundIff(d, d.members[i].key);
    ExtractTakes(d);
    var k := Lower(d.members[i].key);
    DecodeIsLastWins(d.members, map[], k);
    forall j | i < j < |d.members| ensures Lower(d.members[j].key) != k {
      SameIdentifierIff(d.members[j].key, d.members[i].key);
    }
    TextTells(d.members[i].value);
  }
}
