// The lookups the service performs on its stored collections: `find` by email,
// `findIndex` by id, the upsert of `saveUser` and the `filter` of `getAuditLogs`.

module Lookup {
  import opened AuthTypes

  /** `s.findIndex(p)`: the first position whose element satisfies `p`. */
  function FindIndex<T>(s: seq<T>, p: T -> bool): (r: Option<nat>)
    ensures r.Some? ==> r.value < |s| && p(s[r.value])
    ensures r.Some? ==> forall j :: 0 <= j < r.value ==> !p(s[j])
    ensures r.None? ==> forall j :: 0 <= j < |s| ==> !p(s[j])
  {
    if s == [] then None
    else if p(s[0]) then Some(0)
    else match FindIndex(s[1..], p)
      case None => None
      case Some(k) => Some(k + 1)
  }

  /** `users.findIndex(u => u.email === email)`. */
  function EmailIndex(users: seq<User>, email: string): Option<nat>
  {
    FindIndex(users, (u: User) => u.email == email)
  }

  /** `users.findIndex(u => u.id === id)`. */
  function IdIndex(users: seq<User>, id: string): Option<nat>
  {
    FindIndex(users, (u: User) => u.id == id)
  }

  /** `users.find(u => u.email === email)`. */
  function FindByEmail(users: seq<User>, email: string): Option<User>
  {
    match EmailIndex(users, email)
    case None => None
    case Some(i) => Some(users[i])
  }

  /** The collection after `saveUser(user)`: overwrite the first slot with the same id, else append. */
  function Saved(users: seq<User>, user: User): seq<User>
  {
    match IdIndex(users, user.id)
    case Some(i) => users[i := user]
    case None => users + [user]
  }

  /** No two accounts share an email. */
  predicate UniqueEmails(users: seq<User>)
  {
    forall i, j :: 0 <= i < j < |users| ==> users[i].email != users[j].email
  }

  /** No two accounts share an id. */
  predicate UniqueIds(users: seq<User>)
  {
    forall i, j :: 0 <= i < j < |users| ==> users[i].id != users[j].id
  }

  predicate Unique(users: seq<User>)
  {
    UniqueEmails(users) && UniqueIds(users)
  }

  /**
   * Saving an account whose email no stored account has keeps emails and ids
   * unique, and the account is then found by its email.
   */
  lemma SaveNewEmail(users: seq<User>, user: User)
    requires Unique(users)
    requires EmailIndex(users, user.email).None?
    ensures Unique(Saved(users, user))
    ensures FindByEmail(Saved(users, user), user.email) == Some(user)
    ensures IdIndex(users, user.id).None? ==> Saved(users, user) == users + [user]
  {
    var saved := Saved(users, user);
    var p := match IdIndex(users, user.id) case Some(i) => i case None => |users|;
    assert p < |saved| && saved[p] == user;
    assert forall j :: 0 <= j < |saved| && j != p ==> saved[j] == users[j];
    var k := EmailIndex(saved, user.email);
    assert k == Some(p);
  }

  /**
   * Saving a changed copy of the account at position `k` (same id, same email)
   * overwrites exactly that position when ids are unique.
   */
  lemma SaveExisting(users: seq<User>, k: nat, user: User)
    requires Unique(users)
    requires k < |users|
    requires user.id == users[k].id && user.email == users[k].email
    ensures Saved(users, user) == users[k := user]
    ensures Unique(Saved(users, user))
  {
    var i := IdIndex(users, user.id);
    assert i == Some(k) by {
      if i.Some? && i.value != k {
        assert users[i.value].id == users[k].id;
      }
    }
  }

  /** `s.filter(p)`: the elements that satisfy `p`, in their order, each as often as in `s`. */
  function Filter<T>(s: seq<T>, p: T -> bool): (r: seq<T>)
    ensures |r| <= |s|
    ensures forall i :: 0 <= i < |r| ==> p(r[i])
  {
    if s == [] then [] else (if p(s[0]) then [s[0]] else []) + Filter(s[1..], p)
  }

  /** `filter` keeps every element that satisfies the condition as often as it occurs, and no other. */
  lemma {:induction false} FilterCount<T(!new)>(s: seq<T>, p: T -> bool)
    ensures forall x :: multiset(Filter(s, p))[x] == if p(x) then multiset(s)[x] else 0
  {
    if s != [] {
      var head := if p(s[0]) then [s[0]] else [];
      assert s == [s[0]] + s[1..];
      assert Filter(s, p) == head + Filter(s[1..], p);
      FilterCount(s[1..], p);
    }
  }

  /** Filtering a concatenation filters each part and keeps the parts in order. */
  lemma {:induction false} FilterAppend<T>(a: seq<T>, b: seq<T>, p: T -> bool)
    ensures Filter(a + b, p) == Filter(a, p) + Filter(b, p)
  {
    if a == [] {
      assert a + b == b;
    } else {
      var head := if p(a[0]) then [a[0]] else [];
      var rest := a[1..];
      assert (a + b)[0] == a[0] && (a + b)[1..] == rest + b;
      calc {
        Filter(a + b, p);
        head + Filter(rest + b, p);
        { FilterAppend(rest, b, p); }
        head + (Filter(rest, p) + Filter(b, p));
        (head + Filter(rest, p)) + Filter(b, p);
        Filter(a, p) + Filter(b, p);
      }
    }
  }

  /** Filtering one element keeps it exactly when it satisfies the condition. */
  lemma FilterSingle<T>(x: T, p: T -> bool)
    ensures Filter([x], p) == if p(x) then [x] else []
  {
    assert [x][1..] == [];
  }

  /** `s.map(f)`: `f` applied to each element, order kept. */
  function Map<A, B>(s: seq<A>, f: A -> B): (r: seq<B>)
    ensures |r| == |s|
    ensures forall i :: 0 <= i < |s| ==> r[i] == f(s[i])
  {
    if s == [] then [] else [f(s[0])] + Map(s[1..], f)
  }

  lemma MapAppend<A, B>(a: seq<A>, b: seq<A>, f: A -> B)
    ensures Map(a + b, f) == Map(a, f) + Map(b, f)
  {
    assert forall i :: 0 <= i < |a + b| ==> Map(a + b, f)[i] == (Map(a, f) + Map(b, f))[i];
  }

  /**
   * Mapping after filtering by `p` is filtering the mapped sequence by `q`, when `q`
   * holds of an image exactly when `p` holds of the element.
   */
  lemma {:induction false} FilterMap<A(!new), B(!new)>(s: seq<A>, f: A -> B, p: A -> bool, q: B -> bool)
    requires forall x :: q(f(x)) == p(x)
    ensures Map(Filter(s, p), f) == Filter(Map(s, f), q)
  {
    if s != [] {
      var head := if p(s[0]) then [s[0]] else [];
      var mapped := Map(s, f);
      assert mapped[0] == f(s[0]) && mapped[1..] == Map(s[1..], f);
      calc {
        Map(Filter(s, p), f);
        Map(head + Filter(s[1..], p), f);
        { MapAppend(head, Filter(s[1..], p), f); }
        Map(head, f) + Map(Filter(s[1..], p), f);
        { FilterMap(s[1..], f, p, q); }
        Map(head, f) + Filter(Map(s[1..], f), q);
        Filter(mapped, q);
      }
    }
  }

  /** The `filter` condition of `getAuditLogs`: the entry belongs to `userId`. */
  function OwnedBy(userId: string): AuditLog -> bool
  {
    (l: AuditLog) => l.userId == userId
  }

  /** `logs.filter(l => l.userId === userId)`: every entry of one account, order kept. */
  function UserLogs(logs: seq<AuditLog>, userId: string): seq<AuditLog>
  {
    Filter(logs, OwnedBy(userId))
  }

  /** An account's view holds each of its entries as often as the log does, and nothing else. */
  lemma UserLogsCount(logs: seq<AuditLog>, userId: string)
    ensures forall e :: multiset(UserLogs(logs, userId))[e] == if e.userId == userId then multiset(logs)[e] else 0
  {
    FilterCount(logs, OwnedBy(userId));
  }

  /** An account's view of a log made of two parts is its view of each part, in the same order. */
  lemma UserLogsAppend(a: seq<AuditLog>, b: seq<AuditLog>, userId: string)
    ensures UserLogs(a + b, userId) == UserLogs(a, userId) + UserLogs(b, userId)
  {
    FilterAppend(a, b, OwnedBy(userId));
  }
}
