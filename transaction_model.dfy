/**
 * The transaction store (models/transaction.py): INSERT, the owner-scoped
 * SELECTs joined with categories, the partial UPDATE, the DELETE, and the
 * two aggregates (summary and expenses per category).
 */
module TransactionModel {
  import opened Common
  import opened Dates
  import opened Schema
  import opened Sorting

  // ---------------------------------------------------------------- rows

  /** `WHERE id = %s AND user_id = %s`. */
  predicate Matches(t: Transaction, id: int, userId: int) {
    t.id == id && t.userId == userId
  }

  /** The rows `WHERE user_id = u`, in table order. */
  function OwnedBy(txs: seq<Transaction>, userId: int): (r: seq<Transaction>)
    ensures forall t :: t in r <==> t in txs && t.userId == userId
    ensures |r| <= |txs|
  {
    if txs == [] then []
    else
      var init, last := txs[..|txs| - 1], txs[|txs| - 1];
      assert txs == init + [last];
      OwnedBy(init, userId) + (if last.userId == userId then [last] else [])
  }

  lemma {:induction false} OwnedByAppend(a: seq<Transaction>, b: seq<Transaction>, userId: int)
    ensures OwnedBy(a + b, userId) == OwnedBy(a, userId) + OwnedBy(b, userId)
  {
    if b != [] {
      var init := b[..|b| - 1];
      var last := b[|b| - 1];
      var tail := if last.userId == userId then [last] else [];
      assert (a + b)[..|a + b| - 1] == a + init;
      assert (a + b)[|a + b| - 1] == last;
      assert b == init + [last];
      OwnedByAppend(a, init, userId);
      assert OwnedBy(a + b, userId) == OwnedBy(a + init, userId) + tail;
      assert OwnedBy(b, userId) == OwnedBy(init, userId) + tail;
    } else {
      assert a + b == a;
    }
  }

  /**
   * An owner's rows are the same in two tables whose rows agree position by
   * position on who owns them and, for that owner, on their contents.
   */
  lemma {:induction false} OwnedBySamePositions(a: seq<Transaction>, b: seq<Transaction>, userId: int)
    requires |a| == |b|
    requires forall i :: 0 <= i < |a| ==> (a[i].userId == userId) == (b[i].userId == userId)
    requires forall i :: 0 <= i < |a| && a[i].userId == userId ==> a[i] == b[i]
    ensures OwnedBy(a, userId) == OwnedBy(b, userId)
  {
    if a != [] {
      OwnedBySamePositions(a[..|a| - 1], b[..|b| - 1], userId);
    }
  }

  // ---------------------------------------------------------------- create

  /** The row `create` inserts: `date=None` stands for `datetime.now()`. */
  function NewRow(id: int, userId: int, amount: int, kind: Kind, description: Option<string>,
                  categoryId: Option<int>, date: Option<DateTime>, now: DateTime): Transaction
  {
    Transaction(id, userId, amount, kind, description, if date.Some? then date.value else now, categoryId)
  }

  /**
   * `Transaction.create`: one INSERT. It fails, inserting nothing, when the
   * statement raises: a store fault, or a row the schema refuses (amount out
   * of DECIMAL(12,2) range, description too long, unknown category id).
   */
  method Create(db: Database, userId: int, amount: int, kind: Kind, description: Option<string>,
                categoryId: Option<int>, date: Option<DateTime>, now: DateTime, fault: bool)
    returns (ok: bool)
    requires db.Valid()
    modifies db`transactions, db`nextTransactionId
    ensures db.Valid()
    ensures var row := NewRow(old(db.nextTransactionId), userId, amount, kind, description, categoryId, date, now);
      && ok == (!fault && TransactionFits(row, db.categories))
      && db.transactions == (if ok then old(db.transactions) + [row] else old(db.transactions))
    ensures db.nextTransactionId == old(db.nextTransactionId) + (if ok then 1 else 0)
  {
    var row := NewRow(db.nextTransactionId, userId, amount, kind, description, categoryId, date, now);
    if fault || !TransactionFits(row, db.categories) {
      return false;
    }
    AppendKeepsValid(db.transactions, row, db.nextTransactionId, db.categories);
    db.transactions := db.transactions + [row];
    db.nextTransactionId := db.nextTransactionId + 1;
    ok := true;
  }

  lemma AppendKeepsValid(txs: seq<Transaction>, row: Transaction, nextId: int, categories: seq<Category>)
    requires TransactionsValid(txs, nextId, categories)
    requires row.id == nextId && TransactionFits(row, categories)
    ensures TransactionsValid(txs + [row], nextId + 1, categories)
  {
    var r := txs + [row];
    assert forall i :: 0 <= i < |txs| ==> r[i] == txs[i];
    assert r[|txs|] == row;
    forall t | t in r && t.categoryId.Some? ensures HasCategory(categories, t.categoryId.value) {
      if t != row { assert t in txs; }
    }
  }

  // ---------------------------------------------------------------- reads

  /** A result row of the LEFT JOIN with categories: `category_name`, `category_color`. */
  datatype Joined = Joined(tx: Transaction, categoryName: Option<string>, categoryColor: Option<string>)

  /** `categories c ON t.category_id = c.id`: not scoped by owner. */
  function CategoryById(categories: seq<Category>, id: int): (r: Option<Category>)
    ensures r.Some? <==> HasCategory(categories, id)
    ensures r.Some? ==> r.value in categories && r.value.id == id
  {
    if categories == [] then None
    else if categories[0].id == id then Some(categories[0])
    else CategoryById(categories[1..], id)
  }

  function Join(t: Transaction, categories: seq<Category>): Joined {
    match t.categoryId
    case None => Joined(t, None, None)
    case Some(c) =>
      match CategoryById(categories, c)
      case None => Joined(t, None, None)
      case Some(cat) => Joined(t, Some(cat.name), cat.color)
  }

  function Rows(joined: seq<Joined>): (r: seq<Transaction>)
    ensures |r| == |joined| && forall i :: 0 <= i < |r| ==> r[i] == joined[i].tx
  {
    seq(|joined|, i requires 0 <= i < |joined| => joined[i].tx)
  }

  /** `ORDER BY t.date DESC, t.id DESC`: `a` may come before `b`. */
  predicate NewestFirst(a: Transaction, b: Transaction) {
    Earlier(b.date, a.date) || (a.date == b.date && a.id >= b.id)
  }

  lemma NewestFirstIsTotalPreorder()
    ensures TotalPreorder(NewestFirst)
  {
    forall a: Transaction, b: Transaction ensures NewestFirst(a, b) || NewestFirst(b, a) {
      EarlierIsStrictTotal(a.date, b.date, a.date);
    }
    forall a: Transaction, b: Transaction, c: Transaction | NewestFirst(a, b) && NewestFirst(b, c)
      ensures NewestFirst(a, c)
    {
      EarlierIsStrictTotal(c.date, b.date, a.date);
    }
  }

  /**
   * `get_all_by_user`: exactly the owner's rows, each joined with its
   * category, newest first and, for equal dates, higher id first.
   */
  function AllByUser(txs: seq<Transaction>, categories: seq<Category>, userId: int): (r: seq<Joined>)
    ensures multiset(Rows(r)) == multiset(OwnedBy(txs, userId))
    ensures forall t :: t in Rows(r) <==> t in txs && t.userId == userId
    ensures Ordered(Rows(r), NewestFirst)
    ensures forall i :: 0 <= i < |r| ==> r[i] == Join(r[i].tx, categories)
  {
    NewestFirstIsTotalPreorder();
    var owned := OwnedBy(txs, userId);
    var sorted := Sort(owned, NewestFirst);
    SameElements(sorted, owned);
    JoinAll(sorted, categories)
  }

  /** Each row joined with its category, in the same order. */
  function JoinAll(txs: seq<Transaction>, categories: seq<Category>): (r: seq<Joined>)
    ensures Rows(r) == txs
    ensures forall i :: 0 <= i < |r| ==> r[i] == Join(r[i].tx, categories)
  {
    var r := seq(|txs|, i requires 0 <= i < |txs| => Join(txs[i], categories));
    assert Rows(r) == txs;
    r
  }

  /** Two listings ordered newest first, with the same rows of distinct ids, are the same listing. */
  lemma {:induction false} NewestFirstListingIsUnique(a: seq<Transaction>, b: seq<Transaction>)
    requires multiset(a) == multiset(b)
    requires forall i, j :: 0 <= i < j < |a| ==> a[i].id != a[j].id
    requires Ordered(a, NewestFirst) && Ordered(b, NewestFirst)
    ensures a == b
  {
    if a != [] {
      HeadsAgree(a, b);
      TailsAgree(a, b);
      NewestFirstListingIsUnique(a[1..], b[1..]);
      assert a == [a[0]] + a[1..] && b == [b[0]] + b[1..];
    }
  }

  /** Such listings start with the same row. */
  lemma HeadsAgree(a: seq<Transaction>, b: seq<Transaction>)
    requires a != [] && multiset(a) == multiset(b)
    requires forall i, j :: 0 <= i < j < |a| ==> a[i].id != a[j].id
    requires Ordered(a, NewestFirst) && Ordered(b, NewestFirst)
    ensures b != [] && a[0] == b[0]
  {
    assert a[0] in multiset(b);
    assert b[0] in multiset(a);
    var x, y := a[0], b[0];
    var i :| 0 <= i < |a| && a[i] == y;
    var j :| 0 <= j < |b| && b[j] == x;
    assert NewestFirst(x, y) by {
      if i != 0 {
        assert NewestFirst(a[0], a[i]);
      }
    }
    assert NewestFirst(y, x) by {
      if j != 0 {
        assert NewestFirst(b[0], b[j]);
      }
    }
    SameRankSameId(x, y);
  }

  /** Rows that may each come before the other share their date and their id. */
  lemma SameRankSameId(x: Transaction, y: Transaction)
    requires NewestFirst(x, y) && NewestFirst(y, x)
    ensures x.date == y.date && x.id == y.id
  {
    EarlierIsStrictTotal(x.date, y.date, x.date);
  }

  /** Dropping a common first row leaves the same rows behind. */
  lemma TailsAgree<T>(a: seq<T>, b: seq<T>)
    requires a != [] && b != [] && a[0] == b[0] && multiset(a) == multiset(b)
    ensures multiset(a[1..]) == multiset(b[1..])
  {
    assert a == [a[0]] + a[1..] && b == [b[0]] + b[1..];
    assert multiset(a[1..]) == multiset(a) - multiset{a[0]};
    assert multiset(b[1..]) == multiset(b) - multiset{a[0]};
  }

  /** `get_by_id`: the row with this id, only if this owner holds it; otherwise `None`. */
  function ById(txs: seq<Transaction>, categories: seq<Category>, id: int, userId: int): (r: Option<Joined>)
    ensures r.Some? <==> exists t :: t in txs && Matches(t, id, userId)
    ensures r.Some? ==> r.value.tx in txs && Matches(r.value.tx, id, userId)
    ensures r.Some? ==> r.value == Join(r.value.tx, categories)
  {
    if txs == [] then None
    else if Matches(txs[0], id, userId) then Some(Join(txs[0], categories))
    else
      assert forall t :: t in txs && t != txs[0] ==> t in txs[1..];
      ById(txs[1..], categories, id, userId)
  }

  /** Another owner's row behaves as a row that does not exist. */
  lemma ByIdOfOtherOwner(txs: seq<Transaction>, categories: seq<Category>, id: int, userId: int, k: nat)
    requires k < |txs| && txs[k].id == id && txs[k].userId != userId
    requires forall i, j :: 0 <= i < j < |txs| ==> txs[i].id != txs[j].id
    ensures ById(txs, categories, id, userId) == None
  {
    forall t | t in txs && t.id == id ensures t.userId != userId {
      var i :| 0 <= i < |txs| && txs[i] == t;
      assert i == k;
    }
  }

  // ---------------------------------------------------------------- update

  /** What the `category_id` argument asks for: leave it, store an id, or store NULL. */
  datatype CategoryChange = Keep | SetTo(id: int) | Clear

  /**
   * How `Transaction.update` reads an integer `category_id`: `None` leaves the column alone,
   * `0` stores NULL, any other value is stored as given.
   */
  function CategoryArgument(categoryId: Option<int>): (c: CategoryChange)
    ensures c.Keep? <==> categoryId.None?
    ensures c.Clear? <==> categoryId == Some(0)
    ensures c.SetTo? ==> categoryId == Some(c.id) && c.id != 0
  {
    match categoryId
    case None => Keep
    case Some(n) => if n == 0 then Clear else SetTo(n)
  }

  /** The keyword arguments of `update`: `None` means "not supplied". */
  datatype Patch = Patch(
    amount: Option<int>,
    kind: Option<Kind>,
    description: Option<string>,
    date: Option<DateTime>,
    category: CategoryChange)
  {
    predicate IsEmpty() {
      amount.None? && kind.None? && description.None? && date.None? && category.Keep?
    }
  }

  /** The row as the UPDATE leaves it: supplied columns take the new values. */
  function Patched(t: Transaction, p: Patch): Transaction {
    t.(amount := p.amount.GetOr(t.amount),
       kind := p.kind.GetOr(t.kind),
       description := if p.description.Some? then p.description else t.description,
       date := p.date.GetOr(t.date),
       categoryId := match p.category
                     case Keep => t.categoryId
                     case SetTo(c) => Some(c)
                     case Clear => None)
  }

  /** One `column = %s` of the SET clause. */
  datatype Assignment =
    | AmountTo(amount: int)
    | KindTo(kind: Kind)
    | DescriptionTo(text: string)
    | DateTo(date: DateTime)
    | CategoryTo(categoryId: Option<int>)

  function Assign(t: Transaction, a: Assignment): Transaction {
    match a
    case AmountTo(v) => t.(amount := v)
    case KindTo(k) => t.(kind := k)
    case DescriptionTo(s) => t.(description := Some(s))
    case DateTo(d) => t.(date := d)
    case CategoryTo(c) => t.(categoryId := c)
  }

  /** The SET clause applied left to right. */
  function AssignAll(t: Transaction, updates: seq<Assignment>): Transaction {
    if updates == [] then t else Assign(AssignAll(t, updates[..|updates| - 1]), updates[|updates| - 1])
  }

  lemma AssignAllSnoc(t: Transaction, updates: seq<Assignment>, a: Assignment)
    ensures AssignAll(t, updates + [a]) == Assign(AssignAll(t, updates), a)
  {
    assert (updates + [a])[..|updates|] == updates;
  }

  /** The table after `UPDATE transactions SET ... WHERE id = %s AND user_id = %s`. */
  function PatchRows(txs: seq<Transaction>, id: int, userId: int, p: Patch): seq<Transaction> {
    seq(|txs|, i requires 0 <= i < |txs| => if Matches(txs[i], id, userId) then Patched(txs[i], p) else txs[i])
  }

  /** `cursor.rowcount > 0`: MySQL counts the rows whose values actually changed. */
  predicate ChangesSomeRow(txs: seq<Transaction>, id: int, userId: int, p: Patch) {
    exists i :: 0 <= i < |txs| && Matches(txs[i], id, userId) && Patched(txs[i], p) != txs[i]
  }

  /** The schema accepts every row the statement writes. */
  predicate PatchFits(txs: seq<Transaction>, id: int, userId: int, p: Patch, categories: seq<Category>) {
    forall i :: 0 <= i < |txs| && Matches(txs[i], id, userId) ==> TransactionFits(Patched(txs[i], p), categories)
  }

  /**
   * The `updates`/`values` lists of `update`: one assignment per supplied
   * field, in the order amount, type, description, date, category.
   */
  method SetClause(p: Patch) returns (updates: seq<Assignment>)
    ensures (updates == []) == p.IsEmpty()
    ensures forall t :: AssignAll(t, updates) == Patched(t, p)
  {
    updates := [];
    ghost var partial := Patch(None, None, None, None, Keep);
    if p.amount.Some? {
      AssignStep(updates, AmountTo(p.amount.value), partial, partial.(amount := p.amount));
      updates, partial := updates + [AmountTo(p.amount.value)], partial.(amount := p.amount);
    }
    if p.kind.Some? {
      AssignStep(updates, KindTo(p.kind.value), partial, partial.(kind := p.kind));
      updates, partial := updates + [KindTo(p.kind.value)], partial.(kind := p.kind);
    }
    if p.description.Some? {
      AssignStep(updates, DescriptionTo(p.description.value), partial, partial.(description := p.description));
      updates, partial := updates + [DescriptionTo(p.description.value)], partial.(description := p.description);
    }
    if p.date.Some? {
      AssignStep(updates, DateTo(p.date.value), partial, partial.(date := p.date));
      updates, partial := updates + [DateTo(p.date.value)], partial.(date := p.date);
    }
    if !p.category.Keep? {
      var value := if p.category.SetTo? then Some(p.category.id) else None;
      AssignStep(updates, CategoryTo(value), partial, partial.(category := p.category));
      updates, partial := updates + [CategoryTo(value)], partial.(category := p.category);
    }
    assert partial == p;
  }

  /**
   * `Transaction.update`: builds the SET clause from the supplied fields;
   * with none it returns False at once. Otherwise the UPDATE rewrites the
   * owner's row with that id, and the result is whether a row changed. A
   * fault or a refused value (unknown category id, over-long description,
   * amount out of range) aborts the statement.
   */
  method Update(db: Database, id: int, userId: int, p: Patch, fault: bool) returns (ok: bool)
    requires db.Valid()
    modifies db`transactions
    ensures db.Valid()
    ensures ok == (!p.IsEmpty() && !fault && PatchFits(old(db.transactions), id, userId, p, db.categories)
                   && ChangesSomeRow(old(db.transactions), id, userId, p))
    ensures db.transactions == if ok then PatchRows(old(db.transactions), id, userId, p) else old(db.transactions)
  {
    var updates := SetClause(p);
    if updates == [] {
      return false;
    }
    var txs := db.transactions;
    var written := seq(|txs|, i requires 0 <= i < |txs| =>
                         if Matches(txs[i], id, userId) then AssignAll(txs[i], updates) else txs[i]);
    assert written == PatchRows(txs, id, userId, p);
    if fault || !(forall i :: 0 <= i < |txs| && Matches(txs[i], id, userId) ==> TransactionFits(written[i], db.categories)) {
      return false;
    }
    ok := written != txs;
    assert ok == ChangesSomeRow(txs, id, userId, p) by {
      if ok {
        var i :| 0 <= i < |txs| && written[i] != txs[i];
      }
    }
    if ok {
      PatchKeepsValid(txs, id, userId, p, db.nextTransactionId, db.categories);
      db.transactions := written;
    }
  }

  lemma AssignStep(before: seq<Assignment>, a: Assignment, was: Patch, now: Patch)
    requires forall t :: AssignAll(t, before) == Patched(t, was)
    requires forall t :: Assign(Patched(t, was), a) == Patched(t, now)
    ensures forall t :: AssignAll(t, before + [a]) == Patched(t, now)
  {
    forall t ensures AssignAll(t, before + [a]) == Patched(t, now) {
      AssignAllSnoc(t, before, a);
    }
  }

  lemma PatchKeepsValid(txs: seq<Transaction>, id: int, userId: int, p: Patch, nextId: int, categories: seq<Category>)
    requires TransactionsValid(txs, nextId, categories)
    requires PatchFits(txs, id, userId, p, categories)
    ensures TransactionsValid(PatchRows(txs, id, userId, p), nextId, categories)
  {
    var r := PatchRows(txs, id, userId, p);
    assert forall i :: 0 <= i < |txs| ==> r[i].id == txs[i].id;
    forall t | t in r && t.categoryId.Some? ensures HasCategory(categories, t.categoryId.value) {
      var i :| 0 <= i < |r| && r[i] == t;
      if !Matches(txs[i], id, userId) { assert txs[i] in txs; }
    }
  }

  /** An empty patch writes nothing, whatever the table. */
  lemma EmptyPatchChangesNothing(txs: seq<Transaction>, id: int, userId: int, p: Patch)
    requires p.IsEmpty()
    ensures PatchRows(txs, id, userId, p) == txs
    ensures !ChangesSomeRow(txs, id, userId, p)
  {
  }

  /** A patch keeps every column it was not given, and never moves a row's id or owner. */
  lemma PatchedKeepsUnsupplied(t: Transaction, p: Patch)
    ensures var r := Patched(t, p);
      && r.id == t.id && r.userId == t.userId
      && (p.amount.None? ==> r.amount == t.amount) && (p.amount.Some? ==> r.amount == p.amount.value)
      && (p.kind.None? ==> r.kind == t.kind) && (p.kind.Some? ==> r.kind == p.kind.value)
      && (p.description.None? ==> r.description == t.description)
      && (p.description.Some? ==> r.description == p.description)
      && (p.date.None? ==> r.date == t.date) && (p.date.Some? ==> r.date == p.date.value)
      && (p.category.Keep? ==> r.categoryId == t.categoryId)
      && (p.category.Clear? ==> r.categoryId == None)
      && (p.category.SetTo? ==> r.categoryId == Some(p.category.id))
  {
  }

  /** `update(..., category_id=0)` stores NULL; any other id is stored as given. */
  lemma CategoryZeroClears(t: Transaction, categoryId: int)
    ensures Patched(t, Patch(None, None, None, None, CategoryArgument(Some(categoryId)))).categoryId
            == (if categoryId == 0 then None else Some(categoryId))
  {
  }

  /** Only the matching row can change: every other owner's rows stay as they were. */
  lemma UpdateIsolation(txs: seq<Transaction>, id: int, userId: int, p: Patch, other: int)
    requires other != userId
    ensures OwnedBy(PatchRows(txs, id, userId, p), other) == OwnedBy(txs, other)
  {
    OwnedBySamePositions(PatchRows(txs, id, userId, p), txs, other);
  }

  /** When the patch alters the row it finds, the result is exactly "this owner has that id". */
  lemma UpdateFindsOwnedRow(txs: seq<Transaction>, id: int, userId: int, p: Patch, k: nat)
    requires k < |txs| && txs[k].id == id
    requires forall i, j :: 0 <= i < j < |txs| ==> txs[i].id != txs[j].id
    requires Patched(txs[k], p) != txs[k]
    ensures ChangesSomeRow(txs, id, userId, p) <==> txs[k].userId == userId
  {
  }

  // ---------------------------------------------------------------- delete

  /** The table after `DELETE FROM transactions WHERE id = %s AND user_id = %s`. */
  function Without(txs: seq<Transaction>, id: int, userId: int): (r: seq<Transaction>)
    ensures forall t :: t in r <==> t in txs && !Matches(t, id, userId)
    ensures |r| < |txs| <==> exists t :: t in txs && Matches(t, id, userId)
    ensures |r| <= |txs|
  {
    if txs == [] then []
    else
      var init, last := txs[..|txs| - 1], txs[|txs| - 1];
      assert txs == init + [last];
      Without(init, id, userId) + (if Matches(last, id, userId) then [] else [last])
  }

  predicate DistinctIds(txs: seq<Transaction>) {
    forall i, j :: 0 <= i < j < |txs| ==> txs[i].id != txs[j].id
  }

  lemma {:induction false} WithoutKeepsDistinctIds(txs: seq<Transaction>, id: int, userId: int)
    requires DistinctIds(txs)
    ensures DistinctIds(Without(txs, id, userId))
  {
    if txs != [] {
      var init, last := txs[..|txs| - 1], txs[|txs| - 1];
      assert forall i :: 0 <= i < |init| ==> init[i] == txs[i];
      assert DistinctIds(init);
      WithoutKeepsDistinctIds(init, id, userId);
      var w := Without(init, id, userId);
      assert Without(txs, id, userId) == w + (if Matches(last, id, userId) then [] else [last]);
      if Matches(last, id, userId) {
        assert w + [] == w;
      } else {
        var r := w + [last];
        forall i, j | 0 <= i < j < |r| ensures r[i].id != r[j].id {
          assert r[i] == w[i];
          if j == |w| {
            assert r[j] == last;
            assert w[i] in init;
            var k :| 0 <= k < |init| && init[k] == w[i];
            assert txs[k] == w[i] && txs[|init|] == last;
          } else {
            assert r[j] == w[j];
          }
        }
      }
    }
  }

  lemma WithoutKeepsValid(txs: seq<Transaction>, id: int, userId: int, nextId: int, categories: seq<Category>)
    requires TransactionsValid(txs, nextId, categories)
    ensures TransactionsValid(Without(txs, id, userId), nextId, categories)
  {
    var r := Without(txs, id, userId);
    WithoutKeepsDistinctIds(txs, id, userId);
    forall i | 0 <= i < |r| ensures 0 < r[i].id < nextId {
      assert r[i] in txs;
      var k :| 0 <= k < |txs| && txs[k] == r[i];
    }
  }

  /** `Transaction.delete`: True iff the owner's row with that id was removed. */
  method Delete(db: Database, id: int, userId: int, fault: bool) returns (ok: bool)
    requires db.Valid()
    modifies db`transactions
    ensures db.Valid()
    ensures ok == (!fault && exists t :: t in old(db.transactions) && Matches(t, id, userId))
    ensures db.transactions == if ok then Without(old(db.transactions), id, userId) else old(db.transactions)
  {
    if fault {
      return false;
    }
    var remaining := Without(db.transactions, id, userId);
    ok := |remaining| < |db.transactions|;
    if ok {
      WithoutKeepsValid(db.transactions, id, userId, db.nextTransactionId, db.categories);
      db.transactions := remaining;
    }
  }

  /** Deleting removes at most the caller's own row: other owners' rows stay as they were. */
  lemma {:induction false} DeleteIsolation(txs: seq<Transaction>, id: int, userId: int, other: int)
    requires other != userId
    ensures OwnedBy(Without(txs, id, userId), other) == OwnedBy(txs, other)
  {
    if txs != [] {
      var init := txs[..|txs| - 1];
      DeleteIsolation(init, id, userId, other);
      OwnedByAppend(Without(init, id, userId), if Matches(txs[|txs| - 1], id, userId) then [] else [txs[|txs| - 1]], other);
    }
  }

  // ---------------------------------------------------------------- summary

  /** `SUM(CASE WHEN type = kind THEN amount ELSE 0 END)`, zero over no rows. */
  function Total(txs: seq<Transaction>, kind: Kind): int {
    if txs == [] then 0
    else Total(txs[..|txs| - 1], kind) + (if txs[|txs| - 1].kind == kind then txs[|txs| - 1].amount else 0)
  }

  lemma {:induction false} TotalAppend(a: seq<Transaction>, b: seq<Transaction>, kind: Kind)
    ensures Total(a + b, kind) == Total(a, kind) + Total(b, kind)
  {
    if b != [] {
      var init, last := b[..|b| - 1], b[|b| - 1];
      var tail := if last.kind == kind then last.amount else 0;
      assert (a + b)[..|a + b| - 1] == a + init;
      assert (a + b)[|a + b| - 1] == last;
      TotalAppend(a, init, kind);
      assert Total(a + b, kind) == Total(a + init, kind) + tail;
      assert Total(b, kind) == Total(init, kind) + tail;
    } else {
      assert a + b == a;
    }
  }

  datatype Summary = Summary(totalIncome: int, totalExpenses: int, balance: int)

  /**
   * `get_summary_by_user`: income total, expense total and their difference
   * over the owner's rows; all three zero when the query raises.
   */
  function SummaryByUser(txs: seq<Transaction>, userId: int, fault: bool): (s: Summary)
    ensures s.balance == s.totalIncome - s.totalExpenses
    ensures fault ==> s == Summary(0, 0, 0)
    ensures !fault ==> s.totalIncome == Total(OwnedBy(txs, userId), Income)
    ensures !fault ==> s.totalExpenses == Total(OwnedBy(txs, userId), Expense)
  {
    if fault then Summary(0, 0, 0)
    else
      var rows := OwnedBy(txs, userId);
      var income, expenses := Total(rows, Income), Total(rows, Expense);
      Summary(income, expenses, income - expenses)
  }

  /** An owner with no rows sees the zero summary. */
  lemma SummaryOfNoRows(txs: seq<Transaction>, userId: int)
    requires forall t :: t in txs ==> t.userId != userId
    ensures SummaryByUser(txs, userId, false) == Summary(0, 0, 0)
  {
    NoneOwned(txs, userId);
  }

  lemma {:induction false} NoneOwned(txs: seq<Transaction>, userId: int)
    requires forall t :: t in txs ==> t.userId != userId
    ensures OwnedBy(txs, userId) == []
  {
    if txs != [] {
      var init, last := txs[..|txs| - 1], txs[|txs| - 1];
      assert last in txs;
      assert forall t :: t in init ==> t in txs;
      NoneOwned(init, userId);
    }
  }

  /** A created row adds its amount to its owner's side of the summary and to no one else's. */
  lemma SummaryAfterCreate(txs: seq<Transaction>, row: Transaction, userId: int)
    ensures var before, after := SummaryByUser(txs, userId, false), SummaryByUser(txs + [row], userId, false);
      && (row.userId != userId ==> after == before)
      && (row.userId == userId && row.kind == Income ==>
            after == Summary(before.totalIncome + row.amount, before.totalExpenses, before.balance + row.amount))
      && (row.userId == userId && row.kind == Expense ==>
            after == Summary(before.totalIncome, before.totalExpenses + row.amount, before.balance - row.amount))
  {
    assert (txs + [row])[..|txs|] == txs;
    var rows := OwnedBy(txs, userId);
    assert OwnedBy(txs + [row], userId) == rows + (if row.userId == userId then [row] else []);
    if row.userId != userId {
      assert rows + [] == rows;
    }
    if row.userId == userId {
      TotalAppend(rows, [row], Income);
      TotalAppend(rows, [row], Expense);
      assert Total([row], Income) == (if row.kind == Income then row.amount else 0) by {
        assert [row][..0] == [];
      }
      assert Total([row], Expense) == (if row.kind == Expense then row.amount else 0) by {
        assert [row][..0] == [];
      }
    }
  }

  // ---------------------------------------------------------------- expenses per category

  /** The rows `WHERE t.user_id = u AND t.type = 'expense'`, in table order. */
  function ExpensesOf(txs: seq<Transaction>, userId: int): (r: seq<Transaction>)
    ensures forall t :: t in r <==> t in txs && t.userId == userId && t.kind == Expense
  {
    if txs == [] then []
    else
      var init, last := txs[..|txs| - 1], txs[|txs| - 1];
      assert txs == init + [last];
      ExpensesOf(init, userId) + (if last.userId == userId && last.kind == Expense then [last] else [])
  }

  function AmountSum(rows: seq<Transaction>): int {
    if rows == [] then 0 else AmountSum(rows[..|rows| - 1]) + rows[|rows| - 1].amount
  }

  /** The owner's expenses, summed row by row, are the expense total of the summary. */
  lemma {:induction false} ExpensesSum(txs: seq<Transaction>, userId: int)
    ensures AmountSum(ExpensesOf(txs, userId)) == Total(OwnedBy(txs, userId), Expense)
  {
    if txs != [] {
      var init, last := txs[..|txs| - 1], txs[|txs| - 1];
      ExpensesSum(init, userId);
      var e, o := ExpensesOf(init, userId), OwnedBy(init, userId);
      if last.userId == userId {
        assert OwnedBy(txs, userId) == o + [last];
        TotalStep(o, last, Expense);
      } else {
        assert OwnedBy(txs, userId) == o + [];
        assert o + [] == o;
      }
      if last.userId == userId && last.kind == Expense {
        assert ExpensesOf(txs, userId) == e + [last];
        AmountSumStep(e, last);
      } else {
        assert ExpensesOf(txs, userId) == e + [];
        assert e + [] == e;
      }
    }
  }

  lemma AmountSumStep(rows: seq<Transaction>, last: Transaction)
    ensures AmountSum(rows + [last]) == AmountSum(rows) + last.amount
  {
    assert (rows + [last])[..|rows|] == rows;
  }

  lemma TotalStep(rows: seq<Transaction>, last: Transaction, kind: Kind)
    ensures Total(rows + [last], kind) == Total(rows, kind) + (if last.kind == kind then last.amount else 0)
  {
    assert (rows + [last])[..|rows|] == rows;
  }

  /** Some row carries this `category_id` (NULL included). */
  predicate UsesKey(rows: seq<Transaction>, key: Option<int>) {
    exists t :: t in rows && t.categoryId == key
  }

  /** The `category_id` values of the rows, each once, in the order the rows first use them. */
  function KeysOf(rows: seq<Transaction>): (r: seq<Option<int>>)
    ensures forall k :: k in r <==> UsesKey(rows, k)
    ensures forall i, j :: 0 <= i < j < |r| ==> r[i] != r[j]
  {
    if rows == [] then []
    else
      var init, last := rows[..|rows| - 1], rows[|rows| - 1];
      assert rows == init + [last];
      assert forall k :: UsesKey(rows, k) <==> UsesKey(init, k) || k == last.categoryId by {
        forall k | UsesKey(rows, k) && k != last.categoryId ensures UsesKey(init, k) {
          var t :| t in rows && t.categoryId == k;
          assert t in init;
        }
        assert last in rows;
      }
      var keys := KeysOf(init);
      if last.categoryId in keys then keys else keys + [last.categoryId]
  }

  /** `SUM(t.amount)` over the rows with this `category_id`; GROUP BY puts NULLs in one group. */
  function SumFor(rows: seq<Transaction>, key: Option<int>): int {
    if rows == [] then 0
    else SumFor(rows[..|rows| - 1], key) + (if rows[|rows| - 1].categoryId == key then rows[|rows| - 1].amount else 0)
  }

  lemma {:induction false} SumForUnused(rows: seq<Transaction>, key: Option<int>)
    requires !UsesKey(rows, key)
    ensures SumFor(rows, key) == 0
  {
    if rows != [] {
      var init := rows[..|rows| - 1];
      assert rows[|rows| - 1] in rows;
      assert forall t :: t in init ==> t in rows;
      SumForUnused(init, key);
    }
  }

  /** A result row of `GROUP BY t.category_id`: the key and `SUM(t.amount)`. */
  datatype Group = Group(categoryId: Option<int>, total: int)

  function GroupsFor(keys: seq<Option<int>>, rows: seq<Transaction>): (r: seq<Group>)
    ensures |r| == |keys|
    ensures forall i :: 0 <= i < |keys| ==> r[i] == Group(keys[i], SumFor(rows, keys[i]))
  {
    if keys == [] then []
    else GroupsFor(keys[..|keys| - 1], rows) + [Group(keys[|keys| - 1], SumFor(rows, keys[|keys| - 1]))]
  }

  /** The grouped result, in the order the rows first use each key. */
  function Groups(rows: seq<Transaction>): seq<Group> {
    GroupsFor(KeysOf(rows), rows)
  }

  /**
   * The grouped result has one group per `category_id` the rows use, none
   * for a key they do not use, and each group's total is the sum of its
   * rows' amounts.
   */
  lemma GroupsAreGroupBy(rows: seq<Transaction>)
    ensures var r := Groups(rows);
      && (forall i, j :: 0 <= i < j < |r| ==> r[i].categoryId != r[j].categoryId)
      && (forall i :: 0 <= i < |r| ==> UsesKey(rows, r[i].categoryId))
      && (forall t :: t in rows ==> exists i :: 0 <= i < |r| && r[i].categoryId == t.categoryId)
      && (forall i :: 0 <= i < |r| ==> r[i].total == SumFor(rows, r[i].categoryId))
  {
    var keys := KeysOf(rows);
    var r := GroupsFor(keys, rows);
    forall t | t in rows ensures exists i :: 0 <= i < |r| && r[i].categoryId == t.categoryId {
      assert UsesKey(rows, t.categoryId);
      var i :| 0 <= i < |keys| && keys[i] == t.categoryId;
      assert r[i].categoryId == t.categoryId;
    }
  }

  /** The sum of the groups' totals. */
  function GroupTotal(groups: seq<Group>): int {
    if groups == [] then 0 else GroupTotal(groups[..|groups| - 1]) + groups[|groups| - 1].total
  }

  /** One more row adds its amount to the one group, among distinct keys, that carries its key. */
  lemma {:induction false} GroupTotalSnoc(keys: seq<Option<int>>, init: seq<Transaction>, t: Transaction)
    requires forall i, j :: 0 <= i < j < |keys| ==> keys[i] != keys[j]
    ensures GroupTotal(GroupsFor(keys, init + [t]))
            == GroupTotal(GroupsFor(keys, init)) + (if t.categoryId in keys then t.amount else 0)
  {
    if keys != [] {
      var ks, k := keys[..|keys| - 1], keys[|keys| - 1];
      assert keys == ks + [k];
      GroupTotalSnoc(ks, init, t);
      var rows := init + [t];
      assert rows[..|init|] == init;
      assert SumFor(rows, k) == SumFor(init, k) + (if t.categoryId == k then t.amount else 0);
      var a, b := GroupsFor(keys, rows), GroupsFor(keys, init);
      assert a[..|ks|] == GroupsFor(ks, rows);
      assert b[..|ks|] == GroupsFor(ks, init);
      if t.categoryId == k {
        assert t.categoryId !in ks;
      }
    }
  }

  /** The group totals add up to the sum of all grouped rows. */
  lemma {:induction false} GroupsConserveTotal(rows: seq<Transaction>)
    ensures GroupTotal(Groups(rows)) == AmountSum(rows)
  {
    if rows != [] {
      var init, t := rows[..|rows| - 1], rows[|rows| - 1];
      assert rows == init + [t];
      GroupsConserveTotal(init);
      var keys := KeysOf(init);
      assert Groups(init) == GroupsFor(keys, init);
      GroupTotalSnoc(keys, init, t);
      if t.categoryId in keys {
        assert KeysOf(rows) == keys;
      } else {
        var more := keys + [t.categoryId];
        assert KeysOf(rows) == more;
        assert GroupTotal(Groups(rows)) == GroupTotal(GroupsFor(keys, rows)) + SumFor(rows, t.categoryId) by {
          assert more[..|keys|] == keys;
          var g := GroupsFor(more, rows);
          assert g[..|keys|] == GroupsFor(keys, rows);
        }
        assert SumFor(rows, t.categoryId) == t.amount by {
          SumForUnused(init, t.categoryId);
        }
      }
    }
  }

  /** The label of the transactions without a category. */
  const Uncategorized: string := "Ohne Kategorie"

  /** `{'total': ..., 'color': ...}`, one value of the chart dict. */
  datatype ChartEntry = ChartEntry(total: int, color: Option<string>)

  /** `COALESCE(c.name, 'Ohne Kategorie')` for a group's key under the LEFT JOIN. */
  function Label(key: Option<int>, categories: seq<Category>): (l: string)
    ensures key.None? ==> l == Uncategorized
    ensures key.Some? && HasCategory(categories, key.value) ==> l == CategoryById(categories, key.value).value.name
  {
    match key
    case None => Uncategorized
    case Some(id) => match CategoryById(categories, id) case Some(c) => c.name case None => Uncategorized
  }

  /** `c.color` under the LEFT JOIN: NULL for an uncategorized group. */
  function JoinedColor(key: Option<int>, categories: seq<Category>): Option<string> {
    match key
    case None => None
    case Some(id) => match CategoryById(categories, id) case Some(c) => c.color case None => None
  }

  /**
   * How the selected colour reaches the dict. `AsWritten` is
   * `row.get('category_color', '#999999')` on a row whose key is always
   * present, so a NULL colour stays `None`; `Defaulted` replaces NULL by the
   * default colour, as the dashboard's `t.category_color or '#999999'` does.
   */
  datatype ColorRule = AsWritten | Defaulted

  function EntryColor(selected: Option<string>, rule: ColorRule): Option<string> {
    match rule
    case AsWritten => selected
    case Defaulted => Some(selected.GetOr(DefaultColor))
  }

  function Entry(g: Group, categories: seq<Category>, rule: ColorRule): ChartEntry {
    ChartEntry(g.total, EntryColor(JoinedColor(g.categoryId, categories), rule))
  }

  /** No later group carries the same label as group `i`. */
  predicate LastWithLabel(groups: seq<Group>, categories: seq<Category>, i: int)
    requires 0 <= i < |groups|
  {
    forall j :: i < j < |groups| ==> Label(groups[j].categoryId, categories) != Label(groups[i].categoryId, categories)
  }

  /**
   * The dict comprehension over the result rows, keyed by label: every
   * group's label is a key, every key is some group's label, and a later
   * group overwrites an earlier one with the same label.
   */
  function ChartOf(groups: seq<Group>, categories: seq<Category>, rule: ColorRule): (m: map<string, ChartEntry>)
    ensures forall i :: 0 <= i < |groups| ==> Label(groups[i].categoryId, categories) in m
    ensures forall l :: l in m ==> exists i :: 0 <= i < |groups| && Label(groups[i].categoryId, categories) == l
                                         && m[l] == Entry(groups[i], categories, rule)
    ensures forall i :: 0 <= i < |groups| && LastWithLabel(groups, categories, i) ==>
              m[Label(groups[i].categoryId, categories)] == Entry(groups[i], categories, rule)
  {
    if groups == [] then map[]
    else
      var init, last := groups[..|groups| - 1], groups[|groups| - 1];
      var before := ChartOf(init, categories, rule);
      ChartStep(groups, categories, rule, before);
      before[Label(last.categoryId, categories) := Entry(last, categories, rule)]
  }

  /** Writing the last group's entry over the map of the earlier groups keeps the three properties. */
  lemma ChartStep(groups: seq<Group>, categories: seq<Category>, rule: ColorRule, before: map<string, ChartEntry>)
    requires groups != []
    requires var init := groups[..|groups| - 1];
      && (forall i :: 0 <= i < |init| ==> Label(init[i].categoryId, categories) in before)
      && (forall l :: l in before ==> exists i :: 0 <= i < |init| && Label(init[i].categoryId, categories) == l
                                               && before[l] == Entry(init[i], categories, rule))
      && (forall i :: 0 <= i < |init| && LastWithLabel(init, categories, i) ==>
            before[Label(init[i].categoryId, categories)] == Entry(init[i], categories, rule))
    ensures var last := groups[|groups| - 1];
      var m := before[Label(last.categoryId, categories) := Entry(last, categories, rule)];
      && (forall i :: 0 <= i < |groups| ==> Label(groups[i].categoryId, categories) in m)
      && (forall l :: l in m ==> exists i :: 0 <= i < |groups| && Label(groups[i].categoryId, categories) == l
                                          && m[l] == Entry(groups[i], categories, rule))
      && (forall i :: 0 <= i < |groups| && LastWithLabel(groups, categories, i) ==>
            m[Label(groups[i].categoryId, categories)] == Entry(groups[i], categories, rule))
  {
    var init, last := groups[..|groups| - 1], groups[|groups| - 1];
    var m := before[Label(last.categoryId, categories) := Entry(last, categories, rule)];
    assert forall i :: 0 <= i < |init| ==> init[i] == groups[i];
    forall l | l in m ensures exists i :: 0 <= i < |groups| && Label(groups[i].categoryId, categories) == l
                                       && m[l] == Entry(groups[i], categories, rule)
    {
      if l == Label(last.categoryId, categories) {
        assert groups[|groups| - 1] == last;
      } else {
        var i :| 0 <= i < |init| && Label(init[i].categoryId, categories) == l && before[l] == Entry(init[i], categories, rule);
        assert groups[i] == init[i];
      }
    }
    forall i | 0 <= i < |groups| - 1 && LastWithLabel(groups, categories, i)
      ensures m[Label(groups[i].categoryId, categories)] == Entry(groups[i], categories, rule)
    {
      assert LastWithLabel(init, categories, i);
    }
  }

  /**
   * `get_by_category`: the owner's expenses grouped by category, as a dict
   * from label to total and colour; `{}` when the query raises.
   */
  function ByCategory(txs: seq<Transaction>, categories: seq<Category>, userId: int, fault: bool, rule: ColorRule)
    : (m: map<string, ChartEntry>)
    ensures fault ==> m == map[]
    ensures !fault ==> forall l :: l in m <==> ExpenseLabel(txs, categories, userId, l)
  {
    if fault then map[]
    else
      ExpenseLabelsAreKeys(txs, categories, userId, rule);
      ChartOf(Groups(ExpensesOf(txs, userId)), categories, rule)
  }

  /** Some expense of the owner is shown under label `l`. */
  predicate ExpenseLabel(txs: seq<Transaction>, categories: seq<Category>, userId: int, l: string) {
    exists t :: t in txs && t.userId == userId && t.kind == Expense && Label(t.categoryId, categories) == l
  }

  /** The chart's keys are exactly the labels of the owner's expenses. */
  lemma ExpenseLabelsAreKeys(txs: seq<Transaction>, categories: seq<Category>, userId: int, rule: ColorRule)
    ensures var m := ChartOf(Groups(ExpensesOf(txs, userId)), categories, rule);
      forall l :: l in m <==> ExpenseLabel(txs, categories, userId, l)
  {
    var m := ChartOf(Groups(ExpensesOf(txs, userId)), categories, rule);
    forall l ensures l in m <==> ExpenseLabel(txs, categories, userId, l) {
      if l in m {
        KeyIsExpenseLabel(txs, categories, userId, rule, l);
      }
      if ExpenseLabel(txs, categories, userId, l) {
        ExpenseLabelIsKey(txs, categories, userId, rule, l);
      }
    }
  }

  lemma KeyIsExpenseLabel(txs: seq<Transaction>, categories: seq<Category>, userId: int, rule: ColorRule, l: string)
    requires l in ChartOf(Groups(ExpensesOf(txs, userId)), categories, rule)
    ensures ExpenseLabel(txs, categories, userId, l)
  {
    var rows := ExpensesOf(txs, userId);
    KeyIsRowLabel(rows, categories, rule, l);
    var t :| t in rows && Label(t.categoryId, categories) == l;
    assert t in txs && t.userId == userId && t.kind == Expense;
  }

  /** Every key of a chart is the label of one of the grouped rows. */
  lemma KeyIsRowLabel(rows: seq<Transaction>, categories: seq<Category>, rule: ColorRule, l: string)
    requires l in ChartOf(Groups(rows), categories, rule)
    ensures exists t :: t in rows && Label(t.categoryId, categories) == l
  {
    var groups := Groups(rows);
    var i :| 0 <= i < |groups| && Label(groups[i].categoryId, categories) == l;
    GroupsAreGroupBy(rows);
    assert UsesKey(rows, groups[i].categoryId);
  }

  lemma ExpenseLabelIsKey(txs: seq<Transaction>, categories: seq<Category>, userId: int, rule: ColorRule, l: string)
    requires ExpenseLabel(txs, categories, userId, l)
    ensures l in ChartOf(Groups(ExpensesOf(txs, userId)), categories, rule)
  {
    var rows := ExpensesOf(txs, userId);
    var groups := Groups(rows);
    GroupsAreGroupBy(rows);
    var t :| t in txs && t.userId == userId && t.kind == Expense && Label(t.categoryId, categories) == l;
    assert t in rows;
    var i :| 0 <= i < |groups| && groups[i].categoryId == t.categoryId;
  }

  /** Every expense of the owner is counted under its label; uncategorized ones under "Ohne Kategorie". */
  lemma ChartCoversExpenses(txs: seq<Transaction>, categories: seq<Category>, userId: int, rule: ColorRule)
    ensures forall t :: t in txs && t.userId == userId && t.kind == Expense ==>
              Label(t.categoryId, categories) in ByCategory(txs, categories, userId, false, rule)
    ensures forall t :: t in txs && t.userId == userId && t.kind == Expense && t.categoryId.None? ==>
              Uncategorized in ByCategory(txs, categories, userId, false, rule)
  {
    var rows := ExpensesOf(txs, userId);
    var groups := Groups(rows);
    GroupsAreGroupBy(rows);
    forall t | t in txs && t.userId == userId && t.kind == Expense
      ensures Label(t.categoryId, categories) in ByCategory(txs, categories, userId, false, rule)
    {
      assert t in rows;
      var i :| 0 <= i < |groups| && groups[i].categoryId == t.categoryId;
    }
  }

  /** The totals stored under the groups' labels, summed group by group. */
  function EntriesTotal(m: map<string, ChartEntry>, groups: seq<Group>, categories: seq<Category>): int
    requires forall i :: 0 <= i < |groups| ==> Label(groups[i].categoryId, categories) in m
  {
    if groups == [] then 0
    else EntriesTotal(m, groups[..|groups| - 1], categories) + m[Label(groups[|groups| - 1].categoryId, categories)].total
  }

  lemma {:induction false} EntriesTotalOfMatching(m: map<string, ChartEntry>, groups: seq<Group>, categories: seq<Category>)
    requires forall i :: 0 <= i < |groups| ==> Label(groups[i].categoryId, categories) in m
    requires forall i :: 0 <= i < |groups| ==> m[Label(groups[i].categoryId, categories)].total == groups[i].total
    ensures EntriesTotal(m, groups, categories) == GroupTotal(groups)
  {
    if groups != [] {
      var init := groups[..|groups| - 1];
      assert forall i :: 0 <= i < |init| ==> init[i] == groups[i];
      EntriesTotalOfMatching(m, init, categories);
    }
  }

  /** No two groups carry the same label. */
  predicate DistinctLabels(groups: seq<Group>, categories: seq<Category>) {
    forall i, j :: 0 <= i < j < |groups| ==> Label(groups[i].categoryId, categories) != Label(groups[j].categoryId, categories)
  }

  /**
   * When no two groups share a label, the chart's totals add up to the
   * summary's expense total.
   */
  lemma ChartTotalsMatchSummary(txs: seq<Transaction>, categories: seq<Category>, userId: int, rule: ColorRule)
    requires DistinctLabels(Groups(ExpensesOf(txs, userId)), categories)
    ensures EntriesTotal(ByCategory(txs, categories, userId, false, rule), Groups(ExpensesOf(txs, userId)), categories)
            == SummaryByUser(txs, userId, false).totalExpenses
  {
    var rows := ExpensesOf(txs, userId);
    var g := Groups(rows);
    var m := ChartOf(g, categories, rule);
    assert m == ByCategory(txs, categories, userId, false, rule);
    ChartOfDistinct(g, categories, rule);
    EntriesTotalOfMatching(m, g, categories);
    GroupsConserveTotal(rows);
    ExpensesSum(txs, userId);
  }

  lemma ChartOfDistinct(g: seq<Group>, categories: seq<Category>, rule: ColorRule)
    requires DistinctLabels(g, categories)
    ensures var m := ChartOf(g, categories, rule);
      forall i :: 0 <= i < |g| ==> m[Label(g[i].categoryId, categories)].total == g[i].total
  {
    var m := ChartOf(g, categories, rule);
    forall i | 0 <= i < |g| ensures m[Label(g[i].categoryId, categories)].total == g[i].total {
      assert LastWithLabel(g, categories, i);
    }
  }

  /** With the default applied, every chart entry has a colour. */
  lemma ChartColorsSet(txs: seq<Transaction>, categories: seq<Category>, userId: int, fault: bool)
    ensures var m := ByCategory(txs, categories, userId, fault, Defaulted);
      forall l :: l in m ==> m[l].color.Some?
  {
  }

  /** As written, a single uncategorized expense is charted with no colour. */
  lemma UncategorizedColorAsWritten(d: DateTime)
    ensures var row := Transaction(1, 1, 500, Expense, None, d, None);
      ByCategory([row], [], 1, false, AsWritten)[Uncategorized].color == None
  {
    var row := Transaction(1, 1, 500, Expense, None, d, None);
    assert ExpensesOf([row], 1) == [row] by {
      assert [row][..0] == [];
    }
    var g := Groups([row]);
    GroupsAreGroupBy([row]);
    assert row in [row];
    var i :| 0 <= i < |g| && g[i].categoryId == None;
    assert LastWithLabel(g, [], i) by {
      assert |KeysOf([row])| == 1 by { assert [row][..0] == []; }
    }
  }
}
