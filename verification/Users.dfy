/** src/database/users.c over an abstract table. */
module Users {
  import opened Bytes
  import opened Options
  import opened Strings

  const UIN_MIN: nat := 10000000
  const UIN_MAX: nat := 99999999

  /** The contents of a C string. */
  type CStr = s: seq<byte> | 0 !in s

  /** One row; a missing email is NULL in the table. */
  datatype Row = Row(email: Option<CStr>, password: CStr, active: bool)

  type Table = map<nat, Row>

  const EMAIL_LEN: nat := 128
  const PASSWORD_LEN: nat := 64

  function StoredPassword(r: Row): (p: CStr)
    ensures |p| <= 63
  {
    Cut(r.password, PASSWORD_LEN - 1)
  }

  method StrLen(s: array<byte>) returns (n: nat)
    requires 0 in s[..]
    ensures n < s.Length && s[..n] == Before(s[..], 0)
  {
    n := 0;
    while s[n] != 0
      invariant n < s.Length && 0 in s[n..] && 0 !in s[..n]
      decreases s.Length - n
    {
      assert s[n..] == [s[n]] + s[n + 1..];
      n := n + 1;
    }
    BeforeIs(s[..], 0, n);
    assert s[..][..n] == s[..n];
  }

  /** The buffers of a caller; what is in them before a row is read does not matter. */
  class User {
    var uin: nat
    const email: array<byte>
    const password: array<byte>
    var active: bool

    ghost predicate Shape()
    {
      email.Length == EMAIL_LEN && password.Length == PASSWORD_LEN && email != password
    }

    /** The buffers hold what fits of the row, and are terminated. */
    ghost predicate Holds(uin: nat, row: Row)
      requires Shape()
      reads this, email, password
    {
      && this.uin == uin && active == row.active
      && 0 in password[..] && Before(password[..], 0) == StoredPassword(row)
      && 0 in email[..] && Before(email[..], 0) == (if row.email.Some? then Cut(row.email.value, EMAIL_LEN - 1) else [])
    }

    constructor ()
      ensures Shape() && fresh(email) && fresh(password)
    {
      uin, active := 0, false;
      email := new byte[EMAIL_LEN];
      password := new byte[PASSWORD_LEN];
    }

    /** row_to_user: zero everything, then copy what fits. */
    method RowToUser(uin: nat, row: Row)
      requires Shape()
      modifies this, email, password
      ensures Holds(uin, row)
    {
      hide Before;
      this.uin := uin;
      var none: CStr := [];
      FillBuffer(email, if row.email.Some? then row.email.value else none);
      FillBuffer(password, row.password);
      active := row.active;
    }
  }

  /** memset to zero, then strncpy of all but the last byte. */
  method FillBuffer(dst: array<byte>, src: CStr)
    requires dst.Length > 0
    modifies dst
    ensures 0 in dst[..] && Before(dst[..], 0) == Cut(src, dst.Length - 1)
  {
    forall k | 0 <= k < dst.Length {
      dst[k] := 0;
    }
    var i := 0;
    while i < dst.Length - 1 && i < |src|
      invariant i <= dst.Length - 1 && i <= |src|
      invariant dst[..i] == src[..i]
      invariant forall k :: i <= k < dst.Length ==> dst[k] == 0
    {
      dst[i] := src[i];
      i := i + 1;
    }
    assert dst[..][..i] == src[..i] == Cut(src, dst.Length - 1);
    assert dst[..][i] == 0;
    BeforeIs(dst[..], 0, i);
  }

  /** SELECT ... WHERE uin=? AND active=1 */
  predicate Taken(t: Table, uin: nat)
  {
    uin in t && t[uin].active
  }

  ghost predicate EmailKnown(t: Table, email: CStr)
  {
    exists uin :: uin in t && t[uin].active && t[uin].email == Some(email)
  }

  /** The UNIQUE constraint also sees inactive rows; NULLs do not clash. */
  ghost predicate EmailStored(t: Table, email: CStr)
  {
    exists uin :: uin in t && t[uin].email == Some(email)
  }

  /** What one draw of rand() proposes. */
  function Candidate(draw: nat): (uin: nat)
    ensures UIN_MIN <= uin <= UIN_MAX
  {
    draw % (UIN_MAX - UIN_MIN + 1) + UIN_MIN
  }

  /** Every number of the range is drawn, and by exactly one draw below the size of the range;
      larger draws go round. */
  lemma EveryNumberIsDrawn(uin: nat, draw: nat)
    requires UIN_MIN <= uin <= UIN_MAX
    ensures Candidate(uin - UIN_MIN) == uin
    ensures draw <= UIN_MAX - UIN_MIN && Candidate(draw) == uin ==> draw == uin - UIN_MIN
    ensures Candidate(draw + (UIN_MAX - UIN_MIN + 1)) == Candidate(draw)
  {
    var n := UIN_MAX - UIN_MIN + 1;
    var q, d := draw / n, draw % n;
    assert draw + n == (q + 1) * n + d;
  }

  /** A registration request: the three arguments (None is a null pointer) and the
      numbers rand() returns while it runs. */
  datatype Request = Request(email: Option<CStr>, password: Option<CStr>, rand: nat -> nat)

  /** An empty email is stored as NULL. */
  function StoredEmail(q: Request): Option<CStr>
  {
    if q.email.Some? && q.email.value != [] then q.email else None
  }

  /** What a registration may do: refuse and change nothing, or hand out the first of the
      proposed numbers that is free, if it is among the first thousand. */
  ghost predicate Refused(t: Table, q: Request)
  {
    || q.password.None?
    || (StoredEmail(q).Some? && EmailStored(t, StoredEmail(q).value))
    || (forall k: nat :: k < 1000 ==> Taken(t, Candidate(q.rand(k))))
    || (exists k: nat :: k < 1000 && Clash(t, q, k))
  }

  /** The first number that no active row has belongs to an inactive one. */
  ghost predicate Clash(t: Table, q: Request, k: nat)
  {
    FirstFree(t, q, k) && Candidate(q.rand(k)) in t
  }

  ghost predicate FirstFree(t: Table, q: Request, k: nat)
  {
    && !Taken(t, Candidate(q.rand(k)))
    && forall j: nat :: j < k ==> Taken(t, Candidate(q.rand(j)))
  }

  /** One registration as a step of the table; r is what db_register returns. */
  ghost predicate Registered(t: Table, q: Request, r: int, t': Table)
  {
    if Refused(t, q) then
      r == -1 && t' == t
    else
      exists k: nat ::
        k < 1000 && FirstFree(t, q, k) && r == Candidate(q.rand(k)) &&
        t' == t[Candidate(q.rand(k)) := Row(StoredEmail(q), q.password.value, true)]
  }

  class Database {
    var rows: Table

    constructor (t: Table)
      ensures rows == t
    {
      rows := t;
    }

    /** generate_uin: the loop gives up when it has counted more than 1000 attempts, so
        the last number drawn is never looked at. */
    method GenerateUin(rand: nat -> nat) returns (uin: nat, ghost at: nat)
      ensures uin == 0 ==> forall k: nat :: k < 1000 ==> Taken(rows, Candidate(rand(k)))
      ensures uin != 0 ==> at < 1000 && uin == Candidate(rand(at)) && !Taken(rows, uin)
                           && forall j: nat :: j < at ==> Taken(rows, Candidate(rand(j)))
    {
      var attempts := 0;
      while true
        invariant attempts <= 1000
        invariant forall j: nat :: j < attempts ==> Taken(rows, Candidate(rand(j)))
        decreases 1001 - attempts
      {
        at := attempts;
        uin := Candidate(rand(attempts));
        attempts := attempts + 1;
        if attempts > 1000 {
          return 0, at;
        }
        if !Taken(rows, uin) {
          return;
        }
      }
    }

    /** db_find_by_email; None is a null pointer. */
    method FindByEmail(email: Option<CStr>, out: User) returns (found: bool)
      requires out.Shape()
      modifies out, out.email, out.password
      ensures found == (email.Some? && EmailKnown(rows, email.value))
      ensures found ==> exists u :: u in rows && rows[u].active && rows[u].email == email && out.Holds(u, rows[u])
      ensures !found ==> unchanged(out) && unchanged(out.email) && unchanged(out.password)
    {
      if email.None? {
        return false;
      }
      var left := rows.Keys;
      while left != {}
        invariant left <= rows.Keys
        invariant unchanged(out) && unchanged(out.email) && unchanged(out.password)
        invariant forall u :: u in rows && u !in left ==> !(rows[u].active && rows[u].email == email)
        decreases left
      {
        var u :| u in left;
        if rows[u].active && rows[u].email == email {
          out.RowToUser(u, rows[u]);
          return true;
        }
        left := left - {u};
      }
      return false;
    }

    /** db_register. The INSERT fails when it would break a key of the table. */
    method Register(q: Request) returns (r: int)
      modifies this
      ensures Registered(old(rows), q, r, rows)
    {
      if q.password.None? {
        return -1;
      }
      if q.email.Some? && q.email.value != [] {
        var tmp := new User();
        var known := FindByEmail(q.email, tmp);
        if known {
          assert EmailStored(rows, StoredEmail(q).value);
          return -1;
        }
      }
      var uin, at := GenerateUin(q.rand);
      if uin == 0 {
        return -1;
      }
      var inserted := Insert(uin, Row(StoredEmail(q), q.password.value, true));
      if !inserted {
        assert uin in rows ==> Clash(rows, q, at);
        return -1;
      }
      assert FirstFree(old(rows), q, at);
      OneFirstFree(old(rows), q, at);
      return uin;
    }

    lemma OneFirstFree(t: Table, q: Request, at: nat)
      requires FirstFree(t, q, at)
      ensures forall k: nat :: FirstFree(t, q, k) ==> k == at
    {}

    method Insert(uin: nat, row: Row) returns (ok: bool)
      modifies this
      ensures ok == (uin !in old(rows) && !(row.email.Some? && EmailStored(old(rows), row.email.value)))
      ensures rows == if ok then old(rows)[uin := row] else old(rows)
    {
      if uin in rows {
        return false;
      }
      if row.email.Some? {
        var left := rows.Keys;
        while left != {}
          invariant left <= rows.Keys && rows == old(rows)
          invariant forall u :: u in rows && u !in left ==> rows[u].email != row.email
          decreases left
        {
          var u :| u in left;
          if rows[u].email == row.email {
            return false;
          }
          left := left - {u};
        }
      }
      rows := rows[uin := row];
      return true;
    }

    /** db_find_by_uin */
    method FindByUin(uin: nat, out: User) returns (found: bool)
      requires out.Shape()
      modifies out, out.email, out.password
      ensures found == Taken(rows, uin)
      ensures found ==> out.Holds(uin, rows[uin])
      ensures !found ==> unchanged(out) && unchanged(out.email) && unchanged(out.password)
    {
      if uin in rows && rows[uin].active {
        out.RowToUser(uin, rows[uin]);
        return true;
      }
      return false;
    }
  }

  /** Every UIN in use is in the range the generator draws from. */
  ghost predicate InRange(t: Table)
  {
    forall uin :: uin in t ==> UIN_MIN <= uin <= UIN_MAX
  }

  ghost predicate EmailsUnique(t: Table)
  {
    forall u, v :: u in t && v in t && t[u].email.Some? && t[u].email == t[v].email ==> u == v
  }

  /** The tables after each of a list of registrations, whatever they return. */
  ghost predicate History(ts: seq<Table>, qs: seq<Request>)
  {
    && |ts| == |qs| + 1
    && forall i :: 0 <= i < |qs| ==> Follows(ts[i], qs[i], ts[i + 1])
  }

  ghost predicate Follows(t: Table, q: Request, t': Table)
  {
    exists r :: Registered(t, q, r, t')
  }

  /** A registration touches no existing account, keeps the UINs in range and the emails
      apart, and a number it hands out was not in use. */
  lemma RegisteredKeeps(t: Table, q: Request, r: int, t': Table)
    requires Registered(t, q, r, t')
    ensures forall uin :: uin in t ==> uin in t' && t'[uin] == t[uin]
    ensures InRange(t) ==> InRange(t')
    ensures EmailsUnique(t) ==> EmailsUnique(t')
    ensures r == -1 || (UIN_MIN <= r <= UIN_MAX && r !in t && Taken(t', r))
    ensures r != -1 ==> q.password.Some? && t'[r].password == q.password.value
  {
    if !Refused(t, q) {
      var k: nat :| k < 1000 && FirstFree(t, q, k) && r == Candidate(q.rand(k)) &&
        t' == t[Candidate(q.rand(k)) := Row(StoredEmail(q), q.password.value, true)];
      assert !Clash(t, q, k);
    }
  }

  /** Rows for which a registration fails, row by row: an email that some row has, whether it is
      active or not. */
  ghost predicate EmailFree(t: Table, q: Request)
  {
    forall uin :: uin in t && q.email.Some? && q.email.value != [] ==> t[uin].email != q.email
  }

  /** Draw k is the first of the first thousand whose number no active row has, and no inactive
      row has it either. */
  ghost predicate DrawsFree(t: Table, q: Request, k: nat)
  {
    && k < 1000 && 10000000 + q.rand(k) % 90000000 !in t
    && forall j: nat :: j < k ==>
         var taken := 10000000 + q.rand(j) % 90000000; taken in t && t[taken].active
  }

  /** Exactly who gets a number, and which: a request with a password, an email that is new or
      missing, and a free number before any clash. The new row holds the email and the password
      as they are and is active; no other row changes. Everyone else gets -1 and changes nothing. */
  lemma RegisteredIff(t: Table, q: Request, r: int, t': Table)
    requires Registered(t, q, r, t')
    ensures r > 0 <==> q.password.Some? && EmailFree(t, q) && exists k: nat :: DrawsFree(t, q, k)
    ensures r > 0 ==> forall k: nat :: DrawsFree(t, q, k) ==> r == 10000000 + q.rand(k) % 90000000
    ensures r > 0 ==> t' == t[r := Row(if q.email == Some([]) then None else q.email, q.password.value, true)]
    ensures r <= 0 ==> r == -1 && t' == t
  {
    RefusedIff(t, q);
    if !Refused(t, q) {
      var k: nat :| k < 1000 && FirstFree(t, q, k) && r == Candidate(q.rand(k)) &&
        t' == t[Candidate(q.rand(k)) := Row(StoredEmail(q), q.password.value, true)];
      assert StoredEmail(q) == if q.email == Some([]) then None else q.email;
      hide Refused, EmailFree, StoredEmail;
      forall j: nat | DrawsFree(t, q, j) ensures r == 10000000 + q.rand(j) % 90000000 {
        FreeIsFirst(t, q, j, k);
      }
    }
  }

  lemma FreeIsFirst(t: Table, q: Request, j: nat, k: nat)
    requires DrawsFree(t, q, j) && FirstFree(t, q, k)
    ensures j == k
  {
    DrawsFreeIs(t, q, j);
    hide DrawsFree, Candidate;
  }

  lemma DrawsFreeIs(t: Table, q: Request, k: nat)
    ensures DrawsFree(t, q, k) <==> k < 1000 && FirstFree(t, q, k) && !Clash(t, q, k)
  {
    assert forall j: nat :: Candidate(q.rand(j)) == 10000000 + q.rand(j) % 90000000;
    hide Candidate;
  }

  lemma EmailFreeIs(t: Table, q: Request)
    ensures EmailFree(t, q) <==> !(StoredEmail(q).Some? && EmailStored(t, StoredEmail(q).value))
  {}

  lemma RefusedIff(t: Table, q: Request)
    ensures !Refused(t, q) <==> q.password.Some? && EmailFree(t, q) && exists k: nat :: DrawsFree(t, q, k)
  {
    EmailFreeIs(t, q);
    forall k: nat ensures DrawsFree(t, q, k) <==> k < 1000 && FirstFree(t, q, k) && !Clash(t, q, k) {
      DrawsFreeIs(t, q, k);
    }
    hide DrawsFree, EmailFree, Candidate, EmailStored, StoredEmail;
    if exists k: nat :: k < 1000 && !Taken(t, Candidate(q.rand(k))) {
      var k: nat :| k < 1000 && !Taken(t, Candidate(q.rand(k)));
      var first := FirstUntaken(t, q, k);
      assert FirstFree(t, q, first);
    }
  }

  lemma FirstUntaken(t: Table, q: Request, k: nat) returns (first: nat)
    requires !Taken(t, Candidate(q.rand(k)))
    ensures first <= k && FirstFree(t, q, first)
    decreases k
  {
    if j: nat :| j < k && !Taken(t, Candidate(q.rand(j))) {
      first := FirstUntaken(t, q, j);
    } else {
      first := k;
    }
  }

  /** Accounts are for ever. */
  lemma {:induction false} HistoryKeeps(ts: seq<Table>, qs: seq<Request>, i: nat, j: nat)
    requires History(ts, qs) && i <= j <= |qs|
    ensures forall uin :: uin in ts[i] ==> uin in ts[j] && ts[j][uin] == ts[i][uin]
    ensures InRange(ts[i]) ==> InRange(ts[j])
    ensures EmailsUnique(ts[i]) ==> EmailsUnique(ts[j])
    decreases j
  {
    hide Registered, InRange, EmailsUnique;
    if i < j {
      HistoryKeeps(ts, qs, i, j - 1);
      assert Follows(ts[j - 1], qs[j - 1], ts[j]);
      var r :| Registered(ts[j - 1], qs[j - 1], r, ts[j]);
      RegisteredKeeps(ts[j - 1], qs[j - 1], r, ts[j]);
    }
  }
}
