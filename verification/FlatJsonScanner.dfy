/** The scanner as it runs: one index that advances through the body. */
module FlatJsonScanner {
  import opened Collections
  import opened Identifiers
  import opened FlatJson

  method SkipWsAt(s: string, i: nat) returns (j: nat)
    requires i <= |s|
    ensures i <= j <= |s| && s[j..] == SkipWs(s[i..])
  {
    j := i;
    while j < |s| && IsWs(s[j])
      invariant i <= j <= |s| && SkipWs(s[j..]) == SkipWs(s[i..])
    {
      Advance(s, j);
      j := j + 1;
    }
    if j < |s| { Advance(s, j); }
  }

  method SkipDigitsAt(s: string, i: nat) returns (j: nat)
    requires i <= |s|
    ensures i <= j <= |s| && s[j..] == SkipDigits(s[i..])
    ensures i < |s| && IsDigit(s[i]) ==> i < j
  {
    j := i;
    while j < |s| && IsDigit(s[j])
      invariant i <= j <= |s| && SkipDigits(s[j..]) == SkipDigits(s[i..])
    {
      Advance(s, j);
      j := j + 1;
    }
    if j < |s| { Advance(s, j); }
  }

  /** `parse_plain_string`. */
  method PlainStringAt(s: string, i: nat) returns (ok: bool, chars: string, j: nat)
    requires i <= |s|
    ensures ok <==> ScanString(s[i..]).Some?
    ensures ok ==> i < j <= |s| && ScanString(s[i..]) == Some((chars, s[j..]))
  {
    chars, j := "", i;
    if i >= |s| || s[i] != '"' { return false, chars, j; }
    Advance(s, i);
    j := i + 1;
    while j < |s| && s[j] != '"'
      invariant i + 1 <= j <= |s| && chars == s[i + 1..j]
      invariant PlainLen(s[i + 1..]) == |chars| + PlainLen(s[j..])
    {
      Advance(s, j);
      if s[j] as int < 0x20 || s[j] == '\\' {
        assert s[i + 1..][|chars|] == s[j];
        return false, chars, j;
      }
      chars := chars + [s[j]];
      j := j + 1;
    }
    assert |s[i + 1..]| == |chars| + |s[j..]|;
    if j >= |s| { return false, chars, j; }
    Advance(s, j);
    assert s[i + 1..][|chars|] == s[j] && s[i + 1..][..|chars|] == chars && s[i + 1..][|chars| + 1..] == s[j + 1..];
    return true, chars, j + 1;
  }

  /** `parse_number`, up to the fraction. */
  method IntegerAt(s: string, i: nat) returns (ok: bool, j: nat)
    requires i <= |s|
    ensures ok <==> SkipInt(SkipSign(s[i..])).Some?
    ensures ok ==> i < j <= |s| && SkipInt(SkipSign(s[i..])) == Some(s[j..])
  {
    j := i;
    if i < |s| { Advance(s, i); }
    if j < |s| && s[j] == '-' { j := j + 1; }
    assert s[j..] == SkipSign(s[i..]);
    if j >= |s| { return false, j; }
    Advance(s, j);
    if s[j] == '0' {
      j := j + 1;
      if j < |s| && IsDigit(s[j]) { return false, j; }
      return true, j;
    }
    if !IsDigit(s[j]) { return false, j; }
    j := SkipDigitsAt(s, j);
    return true, j;
  }

  method FractionAt(s: string, i: nat) returns (ok: bool, j: nat)
    requires i <= |s|
    ensures ok <==> SkipFrac(s[i..]).Some?
    ensures ok ==> i <= j <= |s| && SkipFrac(s[i..]) == Some(s[j..])
  {
    j := i;
    if j >= |s| || s[j] != '.' {
      return true, j;
    }
    Advance(s, j);
    j := j + 1;
    if j >= |s| || !IsDigit(s[j]) { return false, j; }
    j := SkipDigitsAt(s, j);
    return true, j;
  }

  method ExponentAt(s: string, i: nat) returns (ok: bool, j: nat)
    requires i <= |s|
    ensures ok <==> SkipExp(s[i..]).Some?
    ensures ok ==> i <= j <= |s| && SkipExp(s[i..]) == Some(s[j..])
  {
    j := i;
    if j >= |s| || (s[j] != 'e' && s[j] != 'E') {
      return true, j;
    }
    Advance(s, j);
    j := j + 1;
    if j < |s| && (s[j] == '+' || s[j] == '-') {
      Advance(s, j);
      j := j + 1;
    }
    assert s[j..] == SkipExpSign(s[i..][1..]);
    if j >= |s| || !IsDigit(s[j]) { return false, j; }
    j := SkipDigitsAt(s, j);
    return true, j;
  }

  method NumberAt(s: string, i: nat) returns (ok: bool, j: nat)
    requires i <= |s|
    ensures ok <==> SkipNumber(s[i..]).Some?
    ensures ok ==> i < j <= |s| && SkipNumber(s[i..]) == Some(s[j..])
  {
    ok, j := IntegerAt(s, i);
    if !ok { return; }
    ok, j := FractionAt(s, j);
    if !ok { return; }
    ok, j := ExponentAt(s, j);
  }

  predicate WordAt(s: string, i: nat, word: string)
    requires i <= |s|
  {
    i + |word| <= |s| && s[i..i + |word|] == word
  }

  lemma WordAtIsPrefix(s: string, i: nat, word: string)
    requires i <= |s|
    ensures WordAt(s, i, word) <==> |s[i..]| >= |word| && s[i..][..|word|] == word
    ensures WordAt(s, i, word) ==> s[i..][|word|..] == s[i + |word|..]
  {
    if |s[i..]| >= |word| { assert s[i..][..|word|] == s[i..i + |word|]; }
  }

  /** The value of a member; the token is the text between the two positions. */
  method ValueAt(s: string, i: nat) returns (ok: bool, v: Scalar, j: nat)
    requires i < |s|
    ensures ok <==> ScanValue(s[i..]).Some?
    ensures ok ==> i < j <= |s| && ScanValue(s[i..]) == Some((v, s[j..]))
  {
    v, j := Null, i;
    Advance(s, i);
    WordAtIsPrefix(s, i, "null");
    WordAtIsPrefix(s, i, "true");
    WordAtIsPrefix(s, i, "false");
    if s[i] == '"' {
      var chars;
      ok, chars, j := PlainStringAt(s, i);
      v := Str(chars);
    } else if WordAt(s, i, "null") {
      return true, Null, i + 4;
    } else if WordAt(s, i, "true") {
      return true, True, i + 4;
    } else if WordAt(s, i, "false") {
      return true, False, i + 5;
    } else if s[i] == '-' || IsDigit(s[i]) {
      ok, j := NumberAt(s, i);
      if ok {
        assert Before(s[i..], s[j..]) == s[i..j];
        v := Num(s[i..j]);
      }
    } else {
      ok := false;
    }
  }

  /** One member, up to the comma or brace after it. */
  method MemberAt(s: string, i: nat) returns (ok: bool, key: string, v: Scalar, j: nat)
    requires i <= |s|
    ensures ok <==> ScanMember(s[i..]).Some?
    ensures ok ==> i < j <= |s| && ScanMember(s[i..]) == Some((key, v, s[j..]))
  {
    v := Null;
    j := SkipWsAt(s, i);
    ok, key, j := PlainStringAt(s, j);
    if !ok { return; }
    j := SkipWsAt(s, j);
    if j < |s| { Advance(s, j); }
    if j >= |s| || s[j] != ':' {
      ok := false;
      return;
    }
    j := SkipWsAt(s, j + 1);
    if j >= |s| {
      ok := false;
      return;
    }
    ok, v, j := ValueAt(s, j);
    if !ok { return; }
    j := SkipWsAt(s, j);
  }

  /** After a closing brace only whitespace may follow. */
  method OnlyWsAt(s: string, i: nat) returns (ok: bool)
    requires i <= |s|
    ensures ok <==> SkipWs(s[i..]) == ""
  {
    var j := SkipWsAt(s, i);
    ok := j == |s|;
  }

  /** What the loop has still to do after the member at i, which ends at j. */
  lemma MembersTurn(s: string, i: nat, j: nat, key: string, v: Scalar, fields: Fields)
    requires i < j <= |s| && ScanMember(s[i..]) == Some((key, v, s[j..]))
    ensures var next := fields[Lower(key) := FieldOf(v)];
      ScanMembers(s[i..], fields) ==
      if j < |s| && s[j] == ',' then ScanMembers(s[j + 1..], next)
      else if j < |s| && s[j] == '}' && SkipWs(s[j + 1..]) == "" then Some(next)
      else None
  {
    if j < |s| { Advance(s, j); }
  }

  /** One turn of the member loop: it goes on behind a comma, or is over. */
  method TurnAt(s: string, i: nat, fields: Fields) returns (more: bool, ok: bool, next: Fields, j: nat)
    requires i <= |s|
    ensures more ==> i < j <= |s| && ScanMembers(s[i..], fields) == ScanMembers(s[j..], next)
    ensures !more ==> (ok <==> ScanMembers(s[i..], fields).Some?) && (ok ==> Some(next) == ScanMembers(s[i..], fields))
  {
    var key, v;
    more, next := false, fields;
    ok, key, v, j := MemberAt(s, i);
    if !ok { return; }
    MembersTurn(s, i, j, key, v, fields);
    next := fields[Lower(key) := FieldOf(v)];
    if j < |s| && s[j] == ',' {
      return true, true, next, j + 1;
    }
    if j < |s| && s[j] == '}' {
      ok := OnlyWsAt(s, j + 1);
      return;
    }
    ok := false;
  }

  /** The member loop. */
  method MembersAt(s: string, start: nat) returns (ok: bool, fields: Fields)
    requires start <= |s|
    ensures ok <==> ScanMembers(s[start..], map[]).Some?
    ensures ok ==> Some(fields) == ScanMembers(s[start..], map[])
  {
    fields := map[];
    var i := start;
    while i < |s|
      invariant i <= |s| && ScanMembers(s[start..], map[]) == ScanMembers(s[i..], fields)
      decreases |s| - i
    {
      var more;
      more, ok, fields, i := TurnAt(s, i, fields);
      if !more { return; }
    }
    assert s[i..] == "";
    return false, fields;
  }

  method TryExtractFlatJsonObject(body: string) returns (ok: bool, fields: Fields)
    ensures ok <==> Extract(body).Some?
    ensures ok ==> Some(fields) == Extract(body)
  {
    fields := map[];
    assert body[0..] == body;
    var i := SkipWsAt(body, 0);
    if i < |body| { Advance(body, i); }
    if i >= |body| || body[i] != '{' { return false, fields; }
    i := SkipWsAt(body, i + 1);
    if i < |body| { Advance(body, i); }
    if i < |body| && body[i] == '}' {
      ok := OnlyWsAt(body, i + 1);
      return;
    }
    ok, fields := MembersAt(body, i);
  }
}
