/**
 The rest of the managed_users table beside the access levels: each row's allow-list and creation
 time, and how the requests write them.
 */
module Ledgers {
  import opened Clusters

  /** The column default of allowed_ips, and what the handlers fall back to. */
  const OPEN := ["0.0.0.0/0"]

  type Key = (string, string)

  datatype Mark = Mark(ips: seq<string>, created: nat)

  /**
   `clock` stamps the next row.  `bare` is a history variable: the rows that got their list from the
   column default, or copied it from such a row, since the user's allow-list was last set.
   */
  datatype Book = Book(marks: map<Key, Mark>, clock: nat, bare: set<Key>)

  datatype Ledger = Ledger(cluster: Cluster, book: Book)

  /** Rows may have gone; those that stayed are as they were. */
  ghost predicate Kept(b: Book, b': Book) {
    && b'.clock == b.clock
    && b'.bare <= b'.marks.Keys <= b.marks.Keys
    && forall k :: k in b'.marks ==> b'.marks[k] == b.marks[k] && (k in b'.bare <==> k in b.bare)
  }

  /** New rows belong to the user, carry these addresses, and are each later than all rows before. */
  ghost predicate Entered(b: Book, b': Book, user: string, ips: seq<string>, bare: bool) {
    && b.clock <= b'.clock && b'.bare <= b'.marks.Keys
    && (forall k :: k in b'.marks && k in b.marks ==> b'.marks[k] == b.marks[k] && (k in b'.bare <==> k in b.bare))
    && (forall k :: k in b'.marks && k !in b.marks ==>
          k.0 == user && b'.marks[k].ips == ips && b.clock <= b'.marks[k].created < b'.clock && (k in b'.bare <==> bare))
    && (forall j, k :: j in b'.marks && k in b'.marks && j !in b.marks && k !in b.marks && j != k ==>
          b'.marks[j].created != b'.marks[k].created)
  }

  /** UPDATE managed_users SET allowed_ips = ips WHERE username = user */
  function Relist(b: Book, user: string, ips: seq<string>): Book {
    Book(map k | k in b.marks :: if k.0 == user then b.marks[k].(ips := ips) else b.marks[k],
         b.clock,
         set k | k in b.bare && k.0 != user)
  }

  /** allowed_ips of some row of the user's, or the default. */
  ghost predicate IsCurrentList(b: Book, user: string, list: seq<string>, bare: bool) {
    if forall n :: (user, n) !in b.marks then list == OPEN && bare
    else exists n :: (user, n) in b.marks && list == b.marks[(user, n)].ips && (bare <==> (user, n) in b.bare)
  }

  ghost predicate UpdateBook(b: Book, user: string, ips: seq<string>, b': Book, ok: bool) {
    if ips == [] then exists list, bare :: IsCurrentList(b, user, list, bare) && Entered(b, b', user, list, bare)
    else exists mid :: Entered(b, mid, user, ips, false) && b' == (if ok then Relist(mid, user, ips) else mid)
  }

  /** What a request, posted with this allow-list, does to the book. */
  ghost predicate BookStep(b: Book, r: Request, ips: seq<string>, b': Book, ok: bool) {
    match r
    case CreateUser(user, _, _) => Entered(b, b', user, if ips == [] then OPEN else ips, false)
    case UpdateUser(user, _, _) => UpdateBook(b, user, ips, b', ok)
    case AddUserDatabase(user, _) => Entered(b, b', user, OPEN, true)
    case _ => Kept(b, b')
  }

  ghost predicate Bound(l: Ledger) {
    l.book.marks.Keys == l.cluster.rows.Keys
  }

  ghost predicate LedgerStep(l: Ledger, r: Request, ips: seq<string>, l': Ledger, ok: bool) {
    && Step(l.cluster, r, l'.cluster, ok)
    && BookStep(l.book, r, ips, l'.book, ok)
    && Bound(l')
  }

  /** Creation times are distinct and past, and the bare rows let every IPv4 address in. */
  ghost predicate Orderly(b: Book) {
    && b.bare <= b.marks.Keys
    && (forall k :: k in b.marks ==> b.marks[k].created < b.clock)
    && (forall j, k :: j in b.marks && k in b.marks && j != k ==> b.marks[j].created != b.marks[k].created)
    && (forall k :: k in b.bare ==> b.marks[k].ips == OPEN)
  }

  lemma EnteredOrderly(b: Book, b': Book, user: string, ips: seq<string>, bare: bool)
    requires Orderly(b) && Entered(b, b', user, ips, bare) && (bare ==> ips == OPEN)
    ensures Orderly(b')
  {
  }

  lemma RelistOrderly(b: Book, user: string, ips: seq<string>)
    requires Orderly(b)
    ensures Orderly(Relist(b, user, ips))
  {
  }

  /** Every request, served or not, keeps the book in order. */
  lemma BookStepOrderly(b: Book, r: Request, ips: seq<string>, b': Book, ok: bool)
    requires Orderly(b) && BookStep(b, r, ips, b', ok)
    ensures Orderly(b')
  {
    match r
    case CreateUser(user, _, _) => EnteredOrderly(b, b', user, if ips == [] then OPEN else ips, false);
    case AddUserDatabase(user, _) => EnteredOrderly(b, b', user, OPEN, true);
    case UpdateUser(user, _, _) =>
      if ips == [] {
        var list, bare :| IsCurrentList(b, user, list, bare) && Entered(b, b', user, list, bare);
        EnteredOrderly(b, b', user, list, bare);
      } else {
        var mid :| Entered(b, mid, user, ips, false) && b' == (if ok then Relist(mid, user, ips) else mid);
        EnteredOrderly(b, mid, user, ips, false);
        if ok { RelistOrderly(mid, user, ips); }
      }
    case _ =>
  }

  // ---------- One row at a time ----------

  function Enter(b: Book, k: Key, ips: seq<string>, bare: bool): Book {
    Book(b.marks[k := Mark(ips, b.clock)], b.clock + 1, if bare then b.bare + {k} else b.bare - {k})
  }

  function Erase(b: Book, user: string, names: set<string>): Book {
    Book(map k | k in b.marks && !(k.0 == user && k.1 in names) :: b.marks[k],
         b.clock,
         set k | k in b.bare && !(k.0 == user && k.1 in names))
  }

  lemma EraseKept(b: Book, user: string, names: set<string>)
    requires b.bare <= b.marks.Keys
    ensures Kept(b, Erase(b, user, names))
  {
  }

  lemma EnterOne(start: Book, b: Book, user: string, db: string, ips: seq<string>, bare: bool)
    requires Entered(start, b, user, ips, bare) && (user, db) !in start.marks && (user, db) !in b.marks
    ensures Entered(start, Enter(b, (user, db), ips, bare), user, ips, bare)
  {
  }

  lemma EnterAfterRemoval(start: Book, mid: Book, b: Book, user: string, ips: seq<string>, bare: bool)
    requires Kept(start, mid) && Entered(mid, b, user, ips, bare)
    requires forall k :: k in b.marks && k !in mid.marks ==> k !in start.marks
    ensures Entered(start, b, user, ips, bare)
  {
  }
}
