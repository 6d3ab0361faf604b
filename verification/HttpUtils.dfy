/** src/http/http_utils.c: looking a parameter up in a query string, and URL decoding. */
module HttpUtils {
  import opened Options
  import opened Strings

  /** The contents of a C string; its characters are bytes. */
  type CStr = s: string | '\0' !in s

  // ---- get_param ----

  ghost predicate Occurs(s: string, t: string, i: nat)
  {
    i + |t| <= |s| && s[i..i + |t|] == t
  }

  /** strstr: the first occurrence. */
  function IndexOf(s: string, t: string): (r: Option<nat>)
    ensures r.Some? ==> r.value + |t| <= |s|
    decreases |s|
  {
    if |s| < |t| then None
    else if s[..|t|] == t then Some(0)
    else if s == [] then None
    else match IndexOf(s[1..], t)
      case None => None
      case Some(j) => Some(j + 1)
  }

  lemma OccursLater(s: string, t: string)
    requires |t| <= |s| && s[..|t|] != t
    ensures s != []
    ensures forall i: nat :: Occurs(s, t, i) ==> i > 0 && Occurs(s[1..], t, i - 1)
    ensures forall i: nat :: Occurs(s[1..], t, i) ==> Occurs(s, t, i + 1)
  {
    forall i: nat | Occurs(s, t, i) ensures i > 0 && Occurs(s[1..], t, i - 1) {
      assert s[1..][i - 1..i - 1 + |t|] == s[i..i + |t|];
    }
    forall i: nat | Occurs(s[1..], t, i) ensures Occurs(s, t, i + 1) {
      assert s[1..][i..i + |t|] == s[i + 1..i + 1 + |t|];
    }
  }

  lemma {:induction false} IndexIsFirst(s: string, t: string)
    ensures match IndexOf(s, t)
            case None => forall i: nat :: !Occurs(s, t, i)
            case Some(r) => Occurs(s, t, r) && forall i :: 0 <= i < r ==> !Occurs(s, t, i)
    decreases |s|
  {
    if |t| <= |s| && s[..|t|] != t {
      OccursLater(s, t);
      IndexIsFirst(s[1..], t);
      hide Occurs;
      forall i: nat | Occurs(s, t, i) ensures i > 0 && Occurs(s[1..], t, i - 1) {}
    }
  }

  predicate EndsValue(c: char)
  {
    c == '&' || c == ' '
  }

  /** The characters up to the next '&' or space. */
  function Value(s: string): (v: string)
    ensures v <= s
  {
    if s == [] || EndsValue(s[0]) then [] else [s[0]] + Value(s[1..])
  }

  /** snprintf(search, 64, "%s=", param) */
  function Search(param: string): string
  {
    if |param| <= 62 then param + "=" else param[..63]
  }

  /** What get_param looks for and where: the whole value behind the first hit. */
  function Lookup(query: string, param: string): Option<string>
  {
    Behind(query, Search(param))
  }

  /** What a buffer holds after v and its NUL were written to the front. */
  ghost predicate Wrote(now: string, was: string, v: string)
  {
    |v| < |now| == |was| && now[..|v|] == v && now[|v|] == '\0' && now[|v| + 1..] == was[|v| + 1..]
  }

  /** get_param; None and null stand for the null pointers it guards against. */
  method GetParam(query: Option<CStr>, param: Option<CStr>, out: array?<char>, outSize: int) returns (found: bool)
    requires out != null ==> outSize <= out.Length
    modifies if out == null then {} else {out}
    ensures found == (query.Some? && param.Some? && out != null && outSize > 0 &&
                      Lookup(query.value, param.value).Some?)
    ensures !found && out != null ==> out[..] == old(out[..])
    ensures found ==> Wrote(out[..], old(out[..]), Cut(Lookup(query.value, param.value).value, outSize - 1))
  {
    if query.None? || param.None? || out == null || outSize <= 0 {
      return false;
    }
    hide Wrote, Cut, Value, IndexOf, Occurs, Search;
    found := CopyFound(query.value, Search(param.value), out, outSize);
  }

  /** What a search text finds: the value behind its first occurrence. */
  function Behind(q: string, t: string): Option<string>
  {
    match IndexOf(q, t)
    case None => None
    case Some(i) => Some(Value(q[i + |t|..]))
  }

  /** strstr and the copying loop. */
  method CopyFound(query: CStr, search: string, out: array<char>, outSize: int) returns (found: bool)
    requires 0 < outSize <= out.Length
    modifies out
    ensures found == Behind(query, search).Some?
    ensures if found then Wrote(out[..], old(out[..]), Cut(Behind(query, search).value, outSize - 1))
            else out[..] == old(out[..])
  {
    hide Wrote, Cut, Value, IndexOf;
    var hit := IndexOf(query, search);
    if hit.None? {
      return false;
    }
    CopyValue(query[hit.value + |search|..], out, outSize);
    return true;
  }

  method CopyValue(start: string, out: array<char>, outSize: int)
    requires 0 < outSize <= out.Length
    modifies out
    ensures Wrote(out[..], old(out[..]), Cut(Value(start), outSize - 1))
  {
    hide Value, Wrote, Cut;
    var i := 0;
    while i < |start| && !EndsValue(start[i]) && i < outSize - 1
      invariant i <= |start| && i <= outSize - 1
      invariant forall k :: 0 <= k < i ==> out[k] == start[k] && !EndsValue(start[k])
      invariant forall k :: i <= k < out.Length ==> out[k] == old(out[k])
    {
      out[i] := start[i];
      i := i + 1;
    }
    CutOfValue(start, i, outSize - 1);
    Terminate(out, i, old(out[..]), start[..i]);
  }

  /** The loops stop because the value ends, or because the buffer does. */
  lemma CutOfValue(start: string, i: nat, n: nat)
    requires i <= |start| && i <= n && forall k :: 0 <= k < i ==> !EndsValue(start[k])
    requires i == |start| || EndsValue(start[i]) || i == n
    ensures Cut(Value(start), n) == start[..i]
  {
    hide Value;
    ValuePrefix(start, i);
    assert i == |Value(start)| ==> Value(start)[..i] == Value(start);
  }

  /** The closing NUL. */
  method Terminate(out: array<char>, i: nat, ghost was: string, ghost v: string)
    requires i == |v| < out.Length == |was|
    requires forall k :: 0 <= k < |v| ==> out[k] == v[k]
    requires forall k :: |v| <= k < out.Length ==> out[k] == was[k]
    modifies out
    ensures Wrote(out[..], was, v)
  {
    out[i] := '\0';
  }

  lemma {:induction false} ValuePrefix(s: string, i: nat)
    requires i <= |s| && forall k :: 0 <= k < i ==> !EndsValue(s[k])
    ensures i <= |Value(s)| && Value(s)[..i] == s[..i]
    ensures i == |s| || EndsValue(s[i]) ==> |Value(s)| == i
    decreases i
  {
    ValueUnfolds(s);
    if i > 0 {
      ValuePrefix(s[1..], i - 1);
      hide Value;
      var v := Value(s[1..]);
      assert s[..i] == [s[0]] + s[1..][..i - 1];
      assert ([s[0]] + v)[..i] == [s[0]] + v[..i - 1];
    }
  }

  lemma ValueUnfolds(s: string)
    ensures Value(s) == if s == [] || EndsValue(s[0]) then [] else [s[0]] + Value(s[1..])
  {}

  /** A value goes on to the first '&' or space, or to the end. */
  lemma ValueIs(s: string, n: nat)
    requires n <= |s| && '&' !in s[..n] && ' ' !in s[..n]
    requires n == |s| || s[n] == '&' || s[n] == ' '
    ensures Value(s) == s[..n]
  {
    assert forall k :: 0 <= k < n ==> s[k] == s[..n][k];
    ValuePrefix(s, n);
    hide Value;
    assert Value(s)[..n] == Value(s);
  }

  /** One name=value of a query string. */
  datatype Pair = Pair(key: string, value: string)

  ghost predicate Clean(s: string)
  {
    forall i :: 0 <= i < |s| ==> s[i] != '=' && s[i] != '&' && s[i] != ' ' && s[i] != '\0'
  }

  ghost predicate AllClean(pairs: seq<Pair>)
  {
    forall i :: 0 <= i < |pairs| ==> Clean(pairs[i].key) && Clean(pairs[i].value)
  }

  /** The pairs joined by '&'. */
  function Query(pairs: seq<Pair>): string
  {
    if pairs == [] then []
    else if |pairs| == 1 then Text(pairs[0])
    else Text(pairs[0]) + "&" + Query(pairs[1..])
  }

  function Text(p: Pair): string
  {
    p.key + "=" + p.value
  }

  predicate HasSuffix(s: string, t: string)
  {
    |t| <= |s| && s[|s| - |t|..] == t
  }

  /** The first pair whose key ends in param. */
  function FirstMatch(pairs: seq<Pair>, param: string): (r: Option<nat>)
    ensures r.Some? ==> r.value < |pairs| && HasSuffix(pairs[r.value].key, param)
    ensures r.Some? ==> forall j :: 0 <= j < r.value ==> !HasSuffix(pairs[j].key, param)
    ensures r.None? ==> forall j :: 0 <= j < |pairs| ==> !HasSuffix(pairs[j].key, param)
  {
    if pairs == [] then None
    else if HasSuffix(pairs[0].key, param) then Some(0)
    else match FirstMatch(pairs[1..], param)
      case None => None
      case Some(j) => Some(j + 1)
  }

  /** In key=value followed by nothing or by '&', a hit of "param=" ends at the sign of
      this pair, and then param is a suffix of its key, or it lies behind the '&'. */
  lemma HitInPair(p: Pair, rest: string, param: string, i: nat)
    requires Clean(p.key) && Clean(p.value) && Clean(param)
    requires rest == [] || rest[0] == '&'
    requires Occurs(Text(p) + rest, param + "=", i)
    ensures (HasSuffix(p.key, param) && i == |p.key| - |param|) || i > |Text(p)|
  {
    var s, t := Text(p) + rest, param + "=";
    var e := i + |param|;
    assert s[e] == s[i..i + |t|][|param|] == '=';
    assert forall k :: |p.key| < k < |Text(p)| ==> s[k] == p.value[k - |p.key| - 1];
    assert forall k :: 0 <= k < |p.key| ==> s[k] == p.key[k];
    if e == |p.key| {
      assert s[i..i + |t|][..|param|] == p.key[i..];
    } else {
      assert rest != [] ==> s[|Text(p)|] == rest[0];
      assert forall k :: i <= k < e ==> s[k] == s[i..i + |t|][k - i] == param[k - i];
    }
  }

  lemma HitAtKey(p: Pair, rest: string, param: string)
    requires HasSuffix(p.key, param)
    ensures Occurs(Text(p) + rest, param + "=", |p.key| - |param|)
  {
    var i := |p.key| - |param|;
    assert (Text(p) + rest)[i..i + |param| + 1] == p.key[i..] + "=";
  }

  lemma HitBehind(p: Pair, tail: string, t: string, i: nat)
    ensures Occurs(tail, t, i) <==> Occurs(Text(p) + ("&" + tail), t, |Text(p)| + 1 + i)
  {
    var s := Text(p) + ("&" + tail);
    if i + |t| <= |tail| {
      assert s[|Text(p)| + 1 + i..|Text(p)| + 1 + i + |t|] == tail[i..i + |t|];
    }
  }

  lemma ValueStops(v: string, rest: string)
    requires forall i :: 0 <= i < |v| ==> !EndsValue(v[i])
    requires rest == [] || rest[0] == '&'
    ensures Value(v + rest) == v
  {
    hide Value;
    assert rest != [] ==> (v + rest)[|v|] == rest[0];
    ValuePrefix(v + rest, |v|);
    assert (v + rest)[..|v|] == v;
  }

  lemma HitIsFirst(p: Pair, rest: string, param: string)
    requires Clean(p.key) && Clean(p.value) && Clean(param)
    requires rest == [] || rest[0] == '&'
    requires HasSuffix(p.key, param)
    ensures IndexOf(Text(p) + rest, param + "=") == Some(|p.key| - |param|)
  {
    HitAtKey(p, rest, param);
    hide Occurs, IndexOf, Clean, Text;
    var q, t := Text(p) + rest, param + "=";
    IndexIsFirst(q, t);
    HitInPair(p, rest, param, IndexOf(q, t).value);
  }

  lemma LookupHits(p: Pair, rest: string, param: string)
    requires Clean(p.key) && Clean(p.value) && Clean(param) && |param| <= 62
    requires rest == [] || rest[0] == '&'
    requires HasSuffix(p.key, param)
    ensures Lookup(Text(p) + rest, param) == Some(p.value)
  {
    hide Value, IndexOf, HasSuffix;
    HitIsFirst(p, rest, param);
    assert (Text(p) + rest)[|p.key| + 1..] == p.value + rest;
    ValueStops(p.value, rest);
  }

  lemma LookupSkips(p: Pair, tail: string, param: string)
    requires Clean(p.key) && Clean(p.value) && Clean(param) && |param| <= 62
    requires !HasSuffix(p.key, param)
    ensures Lookup(Text(p) + ("&" + tail), param) == Lookup(tail, param)
  {
    hide Value, HasSuffix, Clean, Text, Occurs, IndexOf;
    var q, t, n := Text(p) + ("&" + tail), param + "=", |Text(p)| + 1;
    var i, j := IndexOf(q, t), IndexOf(tail, t);
    IndexIsFirst(q, t);
    IndexIsFirst(tail, t);
    if i.Some? {
      HitInPair(p, "&" + tail, param, i.value);
      HitBehind(p, tail, t, i.value - n);
    }
    if j.Some? {
      HitBehind(p, tail, t, j.value);
    }
    SameValue(q, tail, t, n);
  }

  lemma SameValue(q: string, tail: string, t: string, n: nat)
    requires n <= |q| && q[n..] == tail
    requires var i := IndexOf(q, t); i.Some? ==> i.value >= n && Occurs(tail, t, i.value - n)
    requires var j := IndexOf(tail, t); j.Some? ==> Occurs(q, t, n + j.value)
    ensures match IndexOf(tail, t)
            case None => IndexOf(q, t) == None
            case Some(j) => IndexOf(q, t) == Some(n + j) && q[n + j + |t|..] == tail[j + |t|..]
  {
    hide IndexOf, Occurs;
    var i, j := IndexOf(q, t), IndexOf(tail, t);
    IndexIsFirst(q, t);
    IndexIsFirst(tail, t);
    if j.Some? {
      assert i.value <= n + j.value && j.value <= i.value - n;
      assert q[n..][j.value + |t|..] == q[n + j.value + |t|..];
    }
  }

  /** On a query that is a list of pairs get_param finds the value of the first pair whose
      key ends in param, and nothing iff there is none. */
  lemma {:induction false} LookupIsFirstSuffix(pairs: seq<Pair>, param: string)
    requires AllClean(pairs) && Clean(param) && |param| <= 62
    ensures Lookup(Query(pairs), param)
         == match FirstMatch(pairs, param) case None => None case Some(j) => Some(pairs[j].value)
  {
    hide Lookup, HasSuffix, Clean;
    if pairs == [] {
      EmptyQuery(param);
    } else {
      var p := pairs[0];
      if HasSuffix(p.key, param) {
        var rest := if |pairs| == 1 then [] else "&" + Query(pairs[1..]);
        assert Query(pairs) == Text(p) + rest;
        LookupHits(p, rest, param);
      } else if |pairs| == 1 {
        LookupMisses(p, param);
      } else {
        assert Query(pairs) == Text(p) + ("&" + Query(pairs[1..]));
        LookupIsFirstSuffix(pairs[1..], param);
        LookupSkips(p, Query(pairs[1..]), param);
      }
    }
  }

  lemma EmptyQuery(param: string)
    ensures Lookup([], param) == None
  {}

  lemma LookupMisses(p: Pair, param: string)
    requires Clean(p.key) && Clean(p.value) && Clean(param) && |param| <= 62
    requires !HasSuffix(p.key, param)
    ensures Lookup(Text(p), param) == None
  {
    assert Text(p) + [] == Text(p);
    IndexIsFirst(Text(p), param + "=");
    if IndexOf(Text(p), param + "=").Some? {
      HitInPair(p, [], param, IndexOf(Text(p), param + "=").value);
    }
  }

  ghost predicate FirstSuffixAt(pairs: seq<Pair>, i: nat, param: string)
  {
    i < |pairs| && HasSuffix(pairs[i].key, param) && forall h :: 0 <= h < i ==> !HasSuffix(pairs[h].key, param)
  }

  /** Looking up the exact name of a pair gives its value iff the first key before it that
      merely ends in the name, if there is one, has the same value. */
  lemma ExactLookup(pairs: seq<Pair>, j: nat, param: string)
    requires AllClean(pairs) && Clean(param) && |param| <= 62
    requires j < |pairs| && pairs[j].key == param
    ensures Lookup(Query(pairs), param) == Some(pairs[j].value)
       <==> forall i :: 0 <= i < j && FirstSuffixAt(pairs, i, param) ==> pairs[i].value == pairs[j].value
  {
    ItsOwnSuffix(param);
    hide *;
    LookupIsFirstSuffix(pairs, param);
    var first := FirstMatch(pairs, param).value;
    FirstSuffixIs(pairs, first, param);
    if Lookup(Query(pairs), param) == Some(pairs[j].value) {
      forall i | 0 <= i < j && FirstSuffixAt(pairs, i, param) ensures pairs[i].value == pairs[j].value {
        FirstSuffixIs(pairs, i, param);
      }
    }
  }

  /** An input for which it is not that value: another key, before it, ends in the name. */
  lemma OtherValueReturned(key: string, other: string, value: string, param: string)
    requires Clean(key) && Clean(param) && Clean(other) && Clean(value) && |param| <= 62 && HasSuffix(key, param)
    ensures Lookup(Query([Pair(key, other), Pair(param, value)]), param) == Some(other)
  {
    LookupIsFirstSuffix([Pair(key, other), Pair(param, value)], param);
  }

  lemma NameFoundInXname()
    ensures Lookup(Query([Pair("xname", "1"), Pair("name", "2")]), "name") == Some("1")
  {
    assert "xname"[1..] == "name";
    OtherValueReturned("xname", "1", "2", "name");
  }

  lemma ItsOwnSuffix(s: string)
    ensures HasSuffix(s, s)
  {}

  lemma FirstSuffixIs(pairs: seq<Pair>, i: nat, param: string)
    ensures FirstSuffixAt(pairs, i, param) <==> FirstMatch(pairs, param) == Some(i)
  {
    hide HasSuffix;
  }

  // ---- names that do not fit ----

  lemma OccursAcross(a: string, sep: char, b: string, t: string, i: nat)
    requires sep !in t && t != []
    ensures Occurs(a + [sep] + b, t, i) <==> Occurs(a, t, i) || (i > |a| && Occurs(b, t, i - |a| - 1))
  {
    var s := a + [sep] + b;
    if i + |t| <= |a| {
      assert s[i..i + |t|] == a[i..i + |t|];
    } else if i <= |a| && i + |t| <= |s| {
      assert s[i..i + |t|][|a| - i] == sep;
    } else if i > |a| && i + |t| <= |s| {
      assert s[i..i + |t|] == b[i - |a| - 1..i - |a| - 1 + |t|];
    }
  }

  /** A text without the separator is found before it or behind it, never across. */
  lemma IndexAcross(a: string, sep: char, b: string, t: string)
    requires sep !in t && t != []
    ensures IndexOf(a + [sep] + b, t)
         == match IndexOf(a, t)
            case Some(i) => Some(i)
            case None => match IndexOf(b, t) case None => None case Some(j) => Some(|a| + 1 + j)
  {
    hide IndexOf, Occurs;
    var r, x, y := IndexOf(a + [sep] + b, t), IndexOf(a, t), IndexOf(b, t);
    IndexIsFirst(a + [sep] + b, t);
    IndexIsFirst(a, t);
    IndexIsFirst(b, t);
    if r.Some? {
      OccursAcross(a, sep, b, t, r.value);
    }
    if x.Some? {
      OccursAcross(a, sep, b, t, x.value);
    } else if y.Some? {
      OccursAcross(a, sep, b, t, |a| + 1 + y.value);
    }
  }

  /** The first place in the keys and values, in order, that holds t; what is behind it up
      to the end of the pair. */
  function FirstInside(pairs: seq<Pair>, t: string): Option<string>
  {
    if pairs == [] then None
    else
      var key, value := pairs[0].key, pairs[0].value;
      match IndexOf(key, t)
      case Some(i) => Some(key[i + |t|..] + "=" + value)
      case None =>
        match IndexOf(value, t)
        case Some(i) => Some(value[i + |t|..])
        case None => FirstInside(pairs[1..], t)
  }

  lemma FoundInKey(p: Pair, rest: string, t: string)
    requires Clean(p.key) && Clean(p.value) && Clean(t) && t != [] && (rest == [] || rest[0] == '&')
    requires IndexOf(p.key, t).Some?
    ensures IndexOf(Text(p) + rest, t) == IndexOf(p.key, t)
  {
    hide Value, IndexOf;
    assert Text(p) + rest == p.key + ['='] + (p.value + rest);
    IndexAcross(p.key, '=', p.value + rest, t);
  }

  lemma ValueInKey(p: Pair, rest: string, n: nat)
    requires Clean(p.key) && Clean(p.value) && (rest == [] || rest[0] == '&') && n <= |p.key|
    ensures Value((Text(p) + rest)[n..]) == p.key[n..] + "=" + p.value
  {
    hide Value;
    var v := p.key[n..] + "=" + p.value;
    assert forall k :: 0 <= k < |v| ==> !EndsValue(v[k]);
    assert (Text(p) + rest)[n..] == v + rest;
    ValueStops(v, rest);
  }

  lemma InKey(p: Pair, rest: string, t: string)
    requires Clean(p.key) && Clean(p.value) && Clean(t) && t != [] && (rest == [] || rest[0] == '&')
    requires IndexOf(p.key, t).Some?
    ensures Behind(Text(p) + rest, t) == Some(p.key[IndexOf(p.key, t).value + |t|..] + "=" + p.value)
  {
    hide Value, IndexOf, Text, Clean;
    FoundInKey(p, rest, t);
    ValueInKey(p, rest, IndexOf(p.key, t).value + |t|);
  }

  lemma FoundInValue(p: Pair, rest: string, t: string)
    requires Clean(p.key) && Clean(p.value) && Clean(t) && t != [] && (rest == [] || rest[0] == '&')
    requires IndexOf(p.key, t).None? && IndexOf(p.value, t).Some?
    ensures IndexOf(Text(p) + rest, t) == Some(|p.key| + 1 + IndexOf(p.value, t).value)
  {
    hide Value, IndexOf;
    assert Text(p) + rest == p.key + ['='] + (p.value + rest);
    IndexAcross(p.key, '=', p.value + rest, t);
    if rest == [] {
      assert p.value + rest == p.value;
    } else {
      assert p.value + rest == p.value + ['&'] + rest[1..];
      IndexAcross(p.value, '&', rest[1..], t);
    }
  }

  lemma ValueInValue(p: Pair, rest: string, n: nat)
    requires Clean(p.value) && (rest == [] || rest[0] == '&') && n <= |p.value|
    ensures Value((Text(p) + rest)[|p.key| + 1 + n..]) == p.value[n..]
  {
    hide Value;
    assert (Text(p) + rest)[|p.key| + 1 + n..] == p.value[n..] + rest;
    ValueStops(p.value[n..], rest);
  }

  lemma InValue(p: Pair, rest: string, t: string)
    requires Clean(p.key) && Clean(p.value) && Clean(t) && t != [] && (rest == [] || rest[0] == '&')
    requires IndexOf(p.key, t).None? && IndexOf(p.value, t).Some?
    ensures Behind(Text(p) + rest, t) == Some(p.value[IndexOf(p.value, t).value + |t|..])
  {
    hide Value, IndexOf, Text, Clean;
    FoundInValue(p, rest, t);
    ValueInValue(p, rest, IndexOf(p.value, t).value + |t|);
  }

  lemma InNeither(p: Pair, rest: string, t: string)
    requires Clean(p.key) && Clean(p.value) && Clean(t) && t != [] && (rest == [] || rest[0] == '&')
    requires IndexOf(p.key, t).None? && IndexOf(p.value, t).None?
    ensures Behind(Text(p) + rest, t) == if rest == [] then None else Behind(rest[1..], t)
  {
    hide Value, IndexOf;
    var q := Text(p) + rest;
    assert q == p.key + ['='] + (p.value + rest);
    IndexAcross(p.key, '=', p.value + rest, t);
    if rest == [] {
      assert p.value + rest == p.value;
    } else {
      var tail := rest[1..];
      assert p.value + rest == p.value + ['&'] + tail;
      IndexAcross(p.value, '&', tail, t);
      if IndexOf(tail, t).Some? {
        var n := IndexOf(tail, t).value + |t|;
        assert q[|p.key| + 1 + |p.value| + 1 + n..] == tail[n..];
      }
    }
  }

  lemma QueryUnfolds(pairs: seq<Pair>)
    requires pairs != []
    ensures Query(pairs) == Text(pairs[0]) + (if |pairs| == 1 then [] else "&" + Query(pairs[1..]))
  {
    hide Text;
  }

  lemma {:induction false} BehindIsFirstInside(pairs: seq<Pair>, t: string)
    requires AllClean(pairs) && Clean(t) && t != []
    ensures Behind(Query(pairs), t) == FirstInside(pairs, t)
  {
    hide Behind, Clean, IndexOf, Text;
    if pairs == [] {
      NothingBehind(t);
    } else {
      QueryUnfolds(pairs);
      hide Query;
      var p := pairs[0];
      var rest := if |pairs| == 1 then [] else "&" + Query(pairs[1..]);
      if IndexOf(p.key, t).Some? {
        InKey(p, rest, t);
      } else if IndexOf(p.value, t).Some? {
        InValue(p, rest, t);
      } else {
        InNeither(p, rest, t);
        if |pairs| > 1 {
          assert rest[1..] == Query(pairs[1..]);
          BehindIsFirstInside(pairs[1..], t);
        }
      }
    }
  }

  lemma NothingBehind(t: string)
    requires t != []
    ensures Behind([], t) == None
  {}

  /** A name longer than 62 bytes does not fit in the 64-byte search buffer: the equals sign
      is lost, and on every list of pairs the first 63 bytes are found anywhere in a key or a
      value, and what follows them is returned. */
  lemma LongNameIsFoundInside(pairs: seq<Pair>, param: string)
    requires AllClean(pairs) && Clean(param) && |param| > 62
    ensures Lookup(Query(pairs), param) == FirstInside(pairs, param[..63])
  {
    hide Query, FirstInside, Behind;
    BehindIsFirstInside(pairs, param[..63]);
  }

  /** So a long name alone gets the rest of itself back as part of the value. */
  lemma LongNameReturnsItsOwnEnd(param: string, value: string)
    requires Clean(param) && Clean(value) && |param| > 62
    ensures Lookup(Query([Pair(param, value)]), param) == Some(param[63..] + "=" + value)
  {
    LongNameIsFoundInside([Pair(param, value)], param);
    assert IndexOf(param, param[..63]) == Some(0);
    hide Lookup, Query, IndexOf;
  }

  // ---- url_decode ----

  function HexValue(c: char): Option<nat>
  {
    if '0' <= c <= '9' then Some((c - '0') as nat)
    else if 'a' <= c <= 'f' then Some((c - 'a') as nat + 10)
    else if 'A' <= c <= 'F' then Some((c - 'A') as nat + 10)
    else None
  }

  /** The digits, one by one, in both cases; everything else is none. */
  lemma DigitsAre(v: nat)
    requires v < 16
    ensures HexValue("0123456789abcdef"[v]) == Some(v) && HexValue("0123456789ABCDEF"[v]) == Some(v)
  {
    assert v == 0 || v == 1 || v == 2 || v == 3 || v == 4 || v == 5 || v == 6 || v == 7 ||
           v == 8 || v == 9 || v == 10 || v == 11 || v == 12 || v == 13 || v == 14 || v == 15;
  }

  lemma NoOtherDigits(c: char)
    ensures HexValue(c).Some? ==> c in "0123456789abcdefABCDEF"
  {}

  predicate IsSpace(c: char)
  {
    c == ' ' || 9 as char <= c <= 13 as char
  }

  /** (char)strtol(hex, NULL, 16) for a string of two characters: strtol skips leading
      white space, takes a sign, and stops at the first character that is no digit. */
  function HexByte(c: char, d: char): char
  {
    var high, low := HexValue(c), HexValue(d);
    if high.Some? && low.Some? then (high.value * 16 + low.value) as char
    else if high.Some? then high.value as char
    else if (c == '+' || IsSpace(c)) && low.Some? then low.value as char
    else if c == '-' && low.Some? then ((256 - low.value) % 256) as char
    else 0 as char
  }

  /** The decoding of a whole string, in a buffer that is large enough. */
  function Decode(src: string): (d: string)
    ensures |d| <= |src|
    decreases |src|
  {
    if src == [] then []
    else if src[0] == '%' && |src| > 2 then [HexByte(src[1], src[2])] + Decode(src[3..])
    else if src[0] == '+' then [' '] + Decode(src[1..])
    else [src[0]] + Decode(src[1..])
  }

  /** url_decode writes as much of the decoding as fits before the final NUL, which it
      writes even when dstSize is 0 or less. */
  method UrlDecode(dst: array<char>, src: CStr, dstSize: int)
    requires dstSize <= dst.Length && dst.Length > 0
    modifies dst
    ensures Wrote(dst[..], old(dst[..]), Cut(Decode(src), if dstSize > 0 then dstSize - 1 else 0))
  {
    hide HexByte, Decode, Wrote, Cut;
    assert src[0..] == src;
    var i, at := 0, 0;
    ghost var done: string := [];
    while at < |src| && i < dstSize - 1
      invariant at <= |src| && |done| == i && (i == 0 || i <= dstSize - 1)
      invariant Decode(src) == done + Decode(src[at..])
      invariant forall k :: 0 <= k < i ==> dst[k] == done[k]
      invariant forall k :: i <= k < dst.Length ==> dst[k] == old(dst[k])
      decreases |src| - at
    {
      var c, next := Unit(src, at);
      dst[i] := c;
      done := done + [c];
      i := i + 1;
      at := next;
    }
    DecodedSoFar(src, done, at, if dstSize > 0 then dstSize - 1 else 0);
    Terminate(dst, i, old(dst[..]), done);
  }

  /** One turn of the loop: the byte it writes, and where it goes on. */
  method Unit(src: CStr, at: nat) returns (c: char, next: nat)
    requires at < |src|
    ensures at < next <= |src| && Decode(src[at..]) == [c] + Decode(src[next..])
  {
    hide HexByte, Decode;
    DecodeAt(src, at);
    if src[at] == '%' && at + 2 < |src| {
      return HexByte(src[at + 1], src[at + 2]), at + 3;
    } else if src[at] == '+' {
      return ' ', at + 1;
    } else {
      return src[at], at + 1;
    }
  }

  lemma DecodedSoFar(src: string, done: string, at: nat, n: nat)
    requires at <= |src| && Decode(src) == done + Decode(src[at..])
    requires |done| <= n && (at == |src| || |done| == n)
    ensures Cut(Decode(src), n) == done
  {
    hide Decode;
    NothingLeft(src, at);
    assert (done + Decode(src[at..]))[..|done|] == done;
  }

  lemma NothingLeft(src: string, at: nat)
    requires at <= |src|
    ensures at == |src| ==> Decode(src[at..]) == []
  {}

  lemma DecodeAt(src: string, at: nat)
    requires at < |src|
    ensures Decode(src[at..])
         == if src[at] == '%' && at + 2 < |src| then [HexByte(src[at + 1], src[at + 2])] + Decode(src[at + 3..])
            else [if src[at] == '+' then ' ' else src[at]] + Decode(src[at + 1..])
  {
    hide HexByte;
    assert src[at..][1..] == src[at + 1..];
    assert at + 2 < |src| ==> src[at..][3..] == src[at + 3..];
  }

  /** Two characters that are not both digits: strtol skips a space, takes a sign, and stops at the
      first character that is no digit; what it cannot read counts as 0. */
  lemma OddPairs(c: char, d: char, v: nat)
    requires v < 16 && HexValue(d) == None
    ensures HexValue(c) == Some(v) ==> HexByte(c, d) == v as char
    ensures HexValue(c) == None ==> HexByte(c, d) == 0 as char
    ensures HexValue(c) == Some(v) ==>
              HexByte(' ', c) == HexByte('\t', c) == HexByte('+', c) == v as char
              && HexByte('-', c) as nat == (if v == 0 then 0 else 256 - v)
              && HexByte('g', c) == 0 as char
  {}

  lemma DecodedExamples()
    ensures Decode("%41%2b+x") == "A+ x"
    ensures Decode("100%") == "100%"
    ensures Decode("%4") == "%4"
  {
    assert "%41%2b+x"[3..] == "%2b+x" && "%2b+x"[3..] == "+x" && "+x"[1..] == "x";
  }

  /** One way to write a byte: as itself, a space as '+', or as two hexadecimal digits. */
  datatype Coded = Raw(c: char) | Plus | Percent(high: char, low: char)

  predicate WellFormed(c: Coded)
  {
    match c
    case Raw(r) => r != '%' && r != '+' && r != '\0'
    case Plus => true
    case Percent(h, l) => HexValue(h).Some? && HexValue(l).Some?
  }

  function Meaning(c: Coded): char
    requires WellFormed(c)
  {
    match c
    case Raw(r) => r
    case Plus => ' '
    case Percent(h, l) => (16 * HexValue(h).value + HexValue(l).value) as char
  }

  function Written(c: Coded): string
  {
    match c
    case Raw(r) => [r]
    case Plus => "+"
    case Percent(h, l) => ['%', h, l]
  }

  ghost predicate AllWellFormed(cs: seq<Coded>)
  {
    forall i :: 0 <= i < |cs| ==> WellFormed(cs[i])
  }

  /** What is written is a C string, so url_decode can be called on it. */
  ghost function WriteAll(cs: seq<Coded>): CStr
    requires AllWellFormed(cs)
  {
    if cs == [] then [] else Written(cs[0]) + WriteAll(cs[1..])
  }

  ghost function MeaningAll(cs: seq<Coded>): (m: string)
    requires AllWellFormed(cs)
    ensures |m| == |cs|
  {
    if cs == [] then [] else [Meaning(cs[0])] + MeaningAll(cs[1..])
  }

  /** Decoding undoes every way of encoding a byte string. */
  lemma {:induction false} DecodeWritten(cs: seq<Coded>)
    requires AllWellFormed(cs)
    ensures Decode(WriteAll(cs)) == MeaningAll(cs)
  {
    if cs != [] {
      var tail := WriteAll(cs[1..]);
      var s := Written(cs[0]) + tail;
      assert s[|Written(cs[0])|..] == tail;
      DecodeWritten(cs[1..]);
    }
  }

  function HexDigit(n: nat): (c: char)
    requires n < 16
    ensures HexValue(c) == Some(n)
  {
    if n < 10 then '0' + n as char else 'a' + (n - 10) as char
  }

  /** The encoding that escapes every byte. */
  function Escaped(s: string): (cs: seq<Coded>)
    requires forall i :: 0 <= i < |s| ==> s[i] as nat < 256
    ensures |cs| == |s|
    ensures forall i :: 0 <= i < |s| ==> WellFormed(cs[i]) && Meaning(cs[i]) == s[i]
  {
    if s == [] then []
    else [Percent(HexDigit(s[0] as nat / 16), HexDigit(s[0] as nat % 16))] + Escaped(s[1..])
  }

  lemma {:induction false} MeaningAt(cs: seq<Coded>, i: nat)
    requires i < |cs| && AllWellFormed(cs)
    ensures MeaningAll(cs)[i] == Meaning(cs[i])
  {
    if i > 0 {
      MeaningAt(cs[1..], i - 1);
    }
  }

  /** Every byte string, NUL bytes included, can be sent and comes back. */
  lemma EscapeRoundTrip(s: string)
    requires forall i :: 0 <= i < |s| ==> s[i] as nat < 256
    ensures Decode(WriteAll(Escaped(s))) == s
  {
    var cs := Escaped(s);
    DecodeWritten(cs);
    forall i | 0 <= i < |s| ensures MeaningAll(cs)[i] == s[i] {
      MeaningAt(cs, i);
    }
  }
}
