/**
 * The category model (models/category.py): the categories table with its
 * owner-scoped statements, the ON DELETE SET NULL rule on
 * transactions.category_id, and the seeding of the default categories.
 */
module CategoryModel {
  import opened Common
  import opened Text
  import opened Schema
  import opened Sorting
  import TransactionModel

  /** `WHERE id = %s AND user_id = %s`. */
  predicate OwnsCategory(c: Category, id: int, userId: int) {
    c.id == id && c.userId == userId
  }

  /** The owner already has a category of that name: the UNIQUE(user_id, name) clash. */
  predicate NameTaken(categories: seq<Category>, userId: int, name: string) {
    exists c :: c in categories && c.userId == userId && c.name == name
  }

  lemma AppendKeepsValid(categories: seq<Category>, row: Category, nextId: int,
                         txs: seq<Transaction>, nextTxId: int)
    requires CategoriesValid(categories, nextId) && TransactionsValid(txs, nextTxId, categories)
    requires row.id == nextId && !NameTaken(categories, row.userId, row.name) && CategoryFits(row)
    ensures CategoriesValid(categories + [row], nextId + 1)
    ensures TransactionsValid(txs, nextTxId, categories + [row])
  {
    var r := categories + [row];
    assert forall i :: 0 <= i < |categories| ==> r[i] == categories[i];
    assert r[|categories|] == row;
    assert forall c :: c in r ==> c in categories || c == row;
    forall i, j | 0 <= i < j < |r| ensures r[i].userId != r[j].userId || r[i].name != r[j].name {
      if j == |categories| {
        assert r[i] in categories;
      }
    }
    ReferencesSurvive(txs, categories, r);
  }

  /** Transactions that fit one category table fit any table that keeps every id of it. */
  lemma ReferencesSurvive(txs: seq<Transaction>, categories: seq<Category>, r: seq<Category>)
    requires forall t :: t in txs ==> TransactionFits(t, categories)
    requires forall c :: c in categories ==> exists d :: d in r && d.id == c.id
    ensures forall t :: t in txs ==> TransactionFits(t, r)
  {
    forall t | t in txs && t.categoryId.Some? ensures HasCategory(r, t.categoryId.value) {
      var c :| c in categories && c.id == t.categoryId.value;
      var d :| d in r && d.id == c.id;
    }
  }

  /**
   * `Category.create`: one INSERT, returning the new id, or `None` when the
   * statement raises: a store fault, a duplicate name for this owner, or a
   * value wider than its column. The colour is stored as passed; callers
   * that omit it pass `DefaultColor`.
   */
  method Create(db: Database, userId: int, name: string, color: Option<string>, fault: bool)
    returns (id: Option<int>)
    requires db.Valid()
    modifies db`categories, db`nextCategoryId
    ensures db.Valid()
    ensures var row := Category(old(db.nextCategoryId), userId, name, color);
      && (id.Some? <==> !fault && CategoryFits(row) && !NameTaken(old(db.categories), userId, name))
      && (id.Some? ==> id.value == row.id && id.value > 0 && db.categories == old(db.categories) + [row])
      && (id.None? ==> db.categories == old(db.categories))
    ensures db.nextCategoryId == old(db.nextCategoryId) + (if id.Some? then 1 else 0)
  {
    var row := Category(db.nextCategoryId, userId, name, color);
    if fault || !CategoryFits(row) || NameTaken(db.categories, userId, name) {
      return None;
    }
    AppendKeepsValid(db.categories, row, db.nextCategoryId, db.transactions, db.nextTransactionId);
    db.categories := db.categories + [row];
    db.nextCategoryId := db.nextCategoryId + 1;
    id := Some(row.id);
  }

  // ---------------------------------------------------------------- reads

  /** The rows `WHERE user_id = u`, in table order. */
  function CategoriesOf(categories: seq<Category>, userId: int): (r: seq<Category>)
    ensures forall c :: c in r <==> c in categories && c.userId == userId
    ensures |r| <= |categories|
  {
    if categories == [] then []
    else
      var init, last := categories[..|categories| - 1], categories[|categories| - 1];
      assert categories == init + [last];
      CategoriesOf(init, userId) + (if last.userId == userId then [last] else [])
  }

  /** `ORDER BY name`. */
  predicate ByName(a: Category, b: Category) {
    LexLeq(a.name, b.name)
  }

  lemma ByNameIsTotalPreorder()
    ensures TotalPreorder(ByName)
  {
    forall a: Category, b: Category ensures ByName(a, b) || ByName(b, a) {
      LexLeqTotal(a.name, b.name);
    }
    forall a: Category, b: Category, c: Category | ByName(a, b) && ByName(b, c) ensures ByName(a, c) {
      LexLeqTransitive(a.name, b.name, c.name);
    }
  }

  /** `get_all_by_user`: exactly the owner's categories, sorted by name. */
  function AllByUser(categories: seq<Category>, userId: int): (r: seq<Category>)
    ensures multiset(r) == multiset(CategoriesOf(categories, userId))
    ensures forall c :: c in r <==> c in categories && c.userId == userId
    ensures Ordered(r, ByName)
  {
    ByNameIsTotalPreorder();
    var s := CategoriesOf(categories, userId);
    var r := Sort(s, ByName);
    assert forall c :: c in r <==> c in multiset(r);
    assert forall c :: c in s <==> c in multiset(s);
    r
  }

  /** `get_by_id`: the category with this id, only if this owner holds it. */
  function ById(categories: seq<Category>, id: int, userId: int): (r: Option<Category>)
    ensures r.Some? <==> exists c :: c in categories && OwnsCategory(c, id, userId)
    ensures r.Some? ==> r.value in categories && OwnsCategory(r.value, id, userId)
  {
    if categories == [] then None
    else if OwnsCategory(categories[0], id, userId) then Some(categories[0])
    else
      assert forall c :: c in categories && c != categories[0] ==> c in categories[1..];
      ById(categories[1..], id, userId)
  }

  /** Another owner's category behaves as one that does not exist. */
  lemma ByIdOfOtherOwner(categories: seq<Category>, nextId: int, id: int, userId: int, k: int)
    requires CategoriesValid(categories, nextId)
    requires 0 <= k < |categories| && categories[k].id == id && categories[k].userId != userId
    ensures ById(categories, id, userId).None?
  {
    forall c | c in categories && c.id == id ensures c.userId != userId {
      var i :| 0 <= i < |categories| && categories[i] == c;
      assert i == k;
    }
  }

  // ---------------------------------------------------------------- update

  /** The row as the UPDATE leaves it: a supplied name or colour replaces the stored one. */
  function Renamed(c: Category, name: Option<string>, color: Option<string>): Category {
    c.(name := name.GetOr(c.name), color := if color.Some? then color else c.color)
  }

  /** The table after `UPDATE categories SET ... WHERE id = %s AND user_id = %s`. */
  function UpdateRows(categories: seq<Category>, id: int, userId: int, name: Option<string>, color: Option<string>)
    : seq<Category>
  {
    seq(|categories|, i requires 0 <= i < |categories| =>
          if OwnsCategory(categories[i], id, userId) then Renamed(categories[i], name, color) else categories[i])
  }

  /** Every rewritten row fits its columns. */
  predicate UpdateFits(categories: seq<Category>, id: int, userId: int, name: Option<string>, color: Option<string>) {
    forall i :: 0 <= i < |categories| && OwnsCategory(categories[i], id, userId) ==>
      CategoryFits(Renamed(categories[i], name, color))
  }

  /** An update changes no row but the owner's row with that id, and no row's id or owner. */
  lemma UpdateIsolation(categories: seq<Category>, id: int, userId: int, name: Option<string>, color: Option<string>)
    ensures var r := UpdateRows(categories, id, userId, name, color);
      && |r| == |categories|
      && (forall i :: 0 <= i < |r| ==> r[i].id == categories[i].id && r[i].userId == categories[i].userId)
      && (forall i :: 0 <= i < |r| && !OwnsCategory(categories[i], id, userId) ==> r[i] == categories[i])
  {
  }

  lemma UpdateKeepsValid(categories: seq<Category>, id: int, userId: int, name: Option<string>, color: Option<string>,
                         nextId: int, txs: seq<Transaction>, nextTxId: int)
    requires CategoriesValid(categories, nextId) && TransactionsValid(txs, nextTxId, categories)
    requires UniqueOwnerNames(UpdateRows(categories, id, userId, name, color))
    requires UpdateFits(categories, id, userId, name, color)
    ensures CategoriesValid(UpdateRows(categories, id, userId, name, color), nextId)
    ensures TransactionsValid(txs, nextTxId, UpdateRows(categories, id, userId, name, color))
  {
    var r := UpdateRows(categories, id, userId, name, color);
    UpdateIsolation(categories, id, userId, name, color);
    UpdatedRowsFit(categories, id, userId, name, color);
    forall c | c in categories ensures exists d :: d in r && d.id == c.id {
      var i :| 0 <= i < |categories| && categories[i] == c;
      assert r[i] in r && r[i].id == c.id;
    }
    ReferencesSurvive(txs, categories, r);
  }

  lemma UpdatedRowsFit(categories: seq<Category>, id: int, userId: int, name: Option<string>, color: Option<string>)
    requires forall c :: c in categories ==> CategoryFits(c)
    requires UpdateFits(categories, id, userId, name, color)
    ensures forall c :: c in UpdateRows(categories, id, userId, name, color) ==> CategoryFits(c)
  {
    var r := UpdateRows(categories, id, userId, name, color);
    forall c | c in r ensures CategoryFits(c) {
      var i :| 0 <= i < |r| && r[i] == c;
      assert categories[i] in categories;
    }
  }

  /**
   * `Category.update`: with neither a name nor a colour it returns False at
   * once. Otherwise the UPDATE rewrites the owner's row with that id, and
   * the result is whether a row changed. A fault, an over-long value or a
   * name the owner already uses for another category aborts the statement.
   */
  method Update(db: Database, id: int, userId: int, name: Option<string>, color: Option<string>, fault: bool)
    returns (ok: bool)
    requires db.Valid()
    modifies db`categories
    ensures db.Valid()
    ensures var after := UpdateRows(old(db.categories), id, userId, name, color);
      ok == (!(name.None? && color.None?) && !fault && UpdateFits(old(db.categories), id, userId, name, color)
             && UniqueOwnerNames(after) && after != old(db.categories))
    ensures db.categories == if ok then UpdateRows(old(db.categories), id, userId, name, color) else old(db.categories)
  {
    if name.None? && color.None? {
      return false;
    }
    var after := UpdateRows(db.categories, id, userId, name, color);
    if fault || !UpdateFits(db.categories, id, userId, name, color) || !UniqueOwnerNames(after) {
      return false;
    }
    ok := after != db.categories;
    if ok {
      UpdateKeepsValid(db.categories, id, userId, name, color, db.nextCategoryId, db.transactions, db.nextTransactionId);
      db.categories := after;
    }
  }

  // ---------------------------------------------------------------- delete

  /** The table after `DELETE FROM categories WHERE id = %s AND user_id = %s`. */
  function WithoutCategory(categories: seq<Category>, id: int, userId: int): (r: seq<Category>)
    ensures forall c :: c in r <==> c in categories && !OwnsCategory(c, id, userId)
    ensures |r| < |categories| <==> exists c :: c in categories && OwnsCategory(c, id, userId)
    ensures |r| <= |categories|
  {
    if categories == [] then []
    else
      var init, last := categories[..|categories| - 1], categories[|categories| - 1];
      assert categories == init + [last];
      WithoutCategory(init, id, userId) + (if OwnsCategory(last, id, userId) then [] else [last])
  }

  /**
   * ON DELETE SET NULL: every transaction, of any owner, that referenced the
   * deleted category now has no category; nothing else about it changes.
   */
  function ClearReferences(txs: seq<Transaction>, id: int): (r: seq<Transaction>)
    ensures |r| == |txs|
    ensures forall i :: 0 <= i < |txs| ==> r[i].(categoryId := None) == txs[i].(categoryId := None)
    ensures forall i :: 0 <= i < |txs| && txs[i].categoryId != Some(id) ==> r[i] == txs[i]
    ensures forall t :: t in r ==> t.categoryId != Some(id)
  {
    seq(|txs|, i requires 0 <= i < |txs| =>
          if txs[i].categoryId == Some(id) then txs[i].(categoryId := None) else txs[i])
  }

  lemma {:induction false} WithoutCategoryKeepsUnique(categories: seq<Category>, id: int, userId: int)
    requires UniqueOwnerNames(categories)
    requires forall i, j :: 0 <= i < j < |categories| ==> categories[i].id != categories[j].id
    ensures var r := WithoutCategory(categories, id, userId);
      && UniqueOwnerNames(r)
      && forall i, j :: 0 <= i < j < |r| ==> r[i].id != r[j].id
  {
    if categories != [] {
      var init, last := categories[..|categories| - 1], categories[|categories| - 1];
      assert forall i :: 0 <= i < |init| ==> init[i] == categories[i];
      WithoutCategoryKeepsUnique(init, id, userId);
      var w := WithoutCategory(init, id, userId);
      assert WithoutCategory(categories, id, userId) == w + (if OwnsCategory(last, id, userId) then [] else [last]);
      if OwnsCategory(last, id, userId) {
        assert w + [] == w;
      } else {
        LastUnlikeEarlier(categories);
        AppendDistinctKeepsUnique(w, last);
      }
    }
  }

  /** With both kinds of uniqueness, the last row differs from every earlier one by id and by (owner, name). */
  lemma LastUnlikeEarlier(categories: seq<Category>)
    requires categories != []
    requires UniqueOwnerNames(categories)
    requires forall i, j :: 0 <= i < j < |categories| ==> categories[i].id != categories[j].id
    ensures var last := categories[|categories| - 1];
      forall c :: c in categories[..|categories| - 1] ==>
        c.id != last.id && (c.userId != last.userId || c.name != last.name)
  {
    var init, last := categories[..|categories| - 1], categories[|categories| - 1];
    forall c | c in init ensures c.id != last.id && (c.userId != last.userId || c.name != last.name) {
      var k :| 0 <= k < |init| && init[k] == c;
      assert categories[k] == c && categories[|init|] == last;
    }
  }

  /** A row unlike every earlier one, by id and by (owner, name), keeps both kinds of uniqueness. */
  lemma AppendDistinctKeepsUnique(w: seq<Category>, last: Category)
    requires UniqueOwnerNames(w) && forall i, j :: 0 <= i < j < |w| ==> w[i].id != w[j].id
    requires forall c :: c in w ==> c.id != last.id && (c.userId != last.userId || c.name != last.name)
    ensures var r := w + [last];
      && UniqueOwnerNames(r)
      && forall i, j :: 0 <= i < j < |r| ==> r[i].id != r[j].id
  {
    var r := w + [last];
    forall i, j | 0 <= i < j < |r|
      ensures r[i].id != r[j].id && (r[i].userId != r[j].userId || r[i].name != r[j].name)
    {
      assert r[i] == w[i] && w[i] in w;
      if j < |w| {
        assert r[j] == w[j];
      }
    }
  }

  lemma DeleteKeepsValid(categories: seq<Category>, id: int, userId: int, nextId: int,
                         txs: seq<Transaction>, nextTxId: int)
    requires CategoriesValid(categories, nextId) && TransactionsValid(txs, nextTxId, categories)
    ensures CategoriesValid(WithoutCategory(categories, id, userId), nextId)
    ensures TransactionsValid(ClearReferences(txs, id), nextTxId, WithoutCategory(categories, id, userId))
  {
    var r := WithoutCategory(categories, id, userId);
    WithoutCategoryKeepsUnique(categories, id, userId);
    forall i | 0 <= i < |r| ensures 0 < r[i].id < nextId {
      assert r[i] in categories;
      var k :| 0 <= k < |categories| && categories[k] == r[i];
    }
    forall c | c in r ensures CategoryFits(c) {
      assert c in categories;
    }
    ClearKeepsValid(categories, id, userId, txs, nextTxId);
  }

  /** After the SET NULL, every remaining reference names a category the delete kept. */
  lemma ClearKeepsValid(categories: seq<Category>, id: int, userId: int, txs: seq<Transaction>, nextTxId: int)
    requires TransactionsValid(txs, nextTxId, categories)
    ensures TransactionsValid(ClearReferences(txs, id), nextTxId, WithoutCategory(categories, id, userId))
  {
    var r := WithoutCategory(categories, id, userId);
    var cleared := ClearReferences(txs, id);
    forall i | 0 <= i < |cleared| ensures 0 < cleared[i].id < nextTxId {
      assert cleared[i].id == txs[i].id;
    }
    forall i, j | 0 <= i < j < |cleared| ensures cleared[i].id != cleared[j].id {
      assert cleared[i].id == txs[i].id && cleared[j].id == txs[j].id;
    }
    forall t | t in cleared ensures TransactionFits(t, r) {
      var i :| 0 <= i < |cleared| && cleared[i] == t;
      assert txs[i] in txs;
      assert t.amount == txs[i].amount && t.description == txs[i].description;
      if t.categoryId.Some? {
        assert txs[i].categoryId == t.categoryId;
        var c :| c in categories && c.id == t.categoryId.value;
        assert c in r;
      }
    }
  }

  /**
   * `Category.delete`: True iff the owner's category with that id was
   * removed; the transactions that referenced it lose their category.
   */
  method Delete(db: Database, id: int, userId: int, fault: bool) returns (ok: bool)
    requires db.Valid()
    modifies db`categories, db`transactions
    ensures db.Valid()
    ensures ok == (!fault && exists c :: c in old(db.categories) && OwnsCategory(c, id, userId))
    ensures db.categories == if ok then WithoutCategory(old(db.categories), id, userId) else old(db.categories)
    ensures db.transactions == if ok then ClearReferences(old(db.transactions), id) else old(db.transactions)
  {
    if fault {
      return false;
    }
    var remaining := WithoutCategory(db.categories, id, userId);
    ok := |remaining| < |db.categories|;
    if ok {
      DeleteKeepsValid(db.categories, id, userId, db.nextCategoryId, db.transactions, db.nextTransactionId);
      db.categories := remaining;
      db.transactions := ClearReferences(db.transactions, id);
    }
  }

  /** Clearing references changes no owner's income, expenses or balance. */
  lemma ClearReferencesKeepsSummary(txs: seq<Transaction>, id: int, userId: int)
    ensures TransactionModel.SummaryByUser(ClearReferences(txs, id), userId, false)
            == TransactionModel.SummaryByUser(txs, userId, false)
  {
    var r := ClearReferences(txs, id);
    OwnedTotalsAgree(txs, r, userId, Income);
    OwnedTotalsAgree(txs, r, userId, Expense);
  }

  /** Two tables that differ only in category ids have the same per-owner totals. */
  lemma {:induction false} OwnedTotalsAgree(a: seq<Transaction>, b: seq<Transaction>, userId: int, kind: Kind)
    requires |a| == |b|
    requires forall i :: 0 <= i < |a| ==> a[i].(categoryId := None) == b[i].(categoryId := None)
    ensures TransactionModel.Total(TransactionModel.OwnedBy(a, userId), kind)
            == TransactionModel.Total(TransactionModel.OwnedBy(b, userId), kind)
  {
    if a != [] {
      var n := |a| - 1;
      var ia, ib := a[..n], b[..n];
      assert forall i :: 0 <= i < n ==> ia[i] == a[i] && ib[i] == b[i];
      OwnedTotalsAgree(ia, ib, userId, kind);
      var x, y := a[n], b[n];
      assert x.(categoryId := None) == y.(categoryId := None);
      assert x.userId == y.userId && x.kind == y.kind && x.amount == y.amount;
      OwnedTotalStep(a, userId, kind);
      OwnedTotalStep(b, userId, kind);
    }
  }

  /** Unfolds the owner's total over a table by its last row. */
  lemma OwnedTotalStep(a: seq<Transaction>, userId: int, kind: Kind)
    requires a != []
    ensures var x := a[|a| - 1];
      TransactionModel.Total(TransactionModel.OwnedBy(a, userId), kind)
      == TransactionModel.Total(TransactionModel.OwnedBy(a[..|a| - 1], userId), kind)
         + (if x.userId == userId && x.kind == kind then x.amount else 0)
  {
    var x, o := a[|a| - 1], TransactionModel.OwnedBy(a[..|a| - 1], userId);
    if x.userId == userId {
      assert TransactionModel.OwnedBy(a, userId) == o + [x];
      assert (o + [x])[..|o|] == o;
    } else {
      assert TransactionModel.OwnedBy(a, userId) == o + [] && o + [] == o;
    }
  }

  // ---------------------------------------------------------------- name_exists

  /** `if exclude_id:`: `None` and `0` exclude nothing; any other id excludes that row. */
  predicate Excluded(id: int, excludeId: Option<int>) {
    excludeId.Some? && excludeId.value != 0 && id == excludeId.value
  }

  /** `SELECT COUNT(*) ... WHERE user_id = %s AND name = %s [AND id != %s]`. */
  function CountNamed(categories: seq<Category>, userId: int, name: string, excludeId: Option<int>): (n: nat)
    ensures n <= |categories|
    ensures n > 0 <==> exists c :: c in categories && c.userId == userId && c.name == name && !Excluded(c.id, excludeId)
  {
    if categories == [] then 0
    else
      var init, last := categories[..|categories| - 1], categories[|categories| - 1];
      assert categories == init + [last];
      CountNamed(init, userId, name, excludeId)
        + (if last.userId == userId && last.name == name && !Excluded(last.id, excludeId) then 1 else 0)
  }

  /** `Category.name_exists`, False when the query raises. */
  function NameExists(categories: seq<Category>, userId: int, name: string, excludeId: Option<int>, fault: bool)
    : (r: bool)
    ensures r <==> !fault && exists c :: c in categories && c.userId == userId && c.name == name && !Excluded(c.id, excludeId)
  {
    !fault && CountNamed(categories, userId, name, excludeId) > 0
  }

  /** A category's own name does not count against it once it is excluded. */
  lemma OwnNameIsFree(categories: seq<Category>, nextId: int, k: int)
    requires CategoriesValid(categories, nextId)
    requires 0 <= k < |categories| && categories[k].id != 0
    ensures !NameExists(categories, categories[k].userId, categories[k].name, Some(categories[k].id), false)
  {
    var c := categories[k];
    forall d | d in categories && d.userId == c.userId && d.name == c.name ensures Excluded(d.id, Some(c.id)) {
      var i :| 0 <= i < |categories| && categories[i] == d;
      assert i == k;
    }
  }

  // ---------------------------------------------------------------- default categories

  /** The nine (name, colour) pairs a new user receives, in order. */
  const Defaults: seq<(string, string)> := [
    ("Lebensmittel", "#FF6384"),
    ("Transport", "#36A2EB"),
    ("Wohnung", "#FFCE56"),
    ("Unterhaltung", "#4BC0C0"),
    ("Einkaufen", "#9966FF"),
    ("Gesundheit", "#FF9F40"),
    ("Bildung", "#E7E9ED"),
    ("Gehalt", "#4BC0C0"),
    ("Sonstiges", "#95A5A6")
  ]

  lemma DefaultsFit()
    ensures forall i :: 0 <= i < |Defaults| ==> |Defaults[i].0| <= CategoryNameWidth && |Defaults[i].1| <= ColorWidth
    ensures forall i, j :: 0 <= i < j < |Defaults| ==> Defaults[i].0 != Defaults[j].0
  {
  }

  /** The i-th seeded row fits the table. */
  lemma DefaultFits(i: int, id: int, userId: int)
    requires 0 <= i < |Defaults|
    ensures CategoryFits(Category(id, userId, Defaults[i].0, Some(Defaults[i].1)))
  {
    DefaultsFit();
  }

  /** How many of the first `n` attempts do not fault. */
  function Successes(fault: nat -> bool, n: nat): (k: nat)
    ensures k <= n
  {
    if n == 0 then 0 else Successes(fault, n - 1) + (if fault(n - 1) then 0 else 1)
  }

  /** A row that seeding inserts for this owner: one of the first `i` pairs. */
  predicate SeededRow(c: Category, userId: int, i: int)
    requires 0 <= i <= |Defaults|
  {
    c.userId == userId && exists k :: 0 <= k < i && c.name == Defaults[k].0 && c.color == Some(Defaults[k].1)
  }

  /**
   * The i-th INSERT of seeding succeeds: no store fault, and the owner held
   * no category of that name before seeding began (the pairs' names are
   * distinct, so earlier seeded rows never clash with it).
   */
  predicate SeedSucceeds(before: seq<Category>, userId: int, fault: nat -> bool, i: nat)
    requires i < |Defaults|
  {
    !fault(i) && !NameTaken(before, userId, Defaults[i].0)
  }

  /**
   * The rows the first `n` attempts of seeding append, in order: one per
   * succeeding attempt, with the ids the counter hands out from `nextId` on.
   */
  function SeededRows(before: seq<Category>, userId: int, nextId: int, fault: nat -> bool, n: nat): (r: seq<Category>)
    requires n <= |Defaults|
    ensures |r| <= n
  {
    if n == 0 then []
    else
      var r := SeededRows(before, userId, nextId, fault, n - 1);
      if SeedSucceeds(before, userId, fault, n - 1)
      then r + [Category(nextId + |r|, userId, Defaults[n - 1].0, Some(Defaults[n - 1].1))]
      else r
  }

  /** Every seeded row belongs to the owner and carries one of the first `n` pairs. */
  lemma {:induction false} SeededRowsAreDefaults(before: seq<Category>, userId: int, nextId: int, fault: nat -> bool, n: nat)
    requires n <= |Defaults|
    ensures forall c :: c in SeededRows(before, userId, nextId, fault, n) ==> SeededRow(c, userId, n)
  {
    if n > 0 {
      SeededRowsAreDefaults(before, userId, nextId, fault, n - 1);
      var r := SeededRows(before, userId, nextId, fault, n - 1);
      forall c | c in SeededRows(before, userId, nextId, fault, n) ensures SeededRow(c, userId, n) {
        if c in r {
          var k :| 0 <= k < n - 1 && c.name == Defaults[k].0 && c.color == Some(Defaults[k].1);
        } else {
          assert c.name == Defaults[n - 1].0 && c.color == Some(Defaults[n - 1].1);
        }
      }
    }
  }

  /** For an owner without categories, exactly the unfaulted attempts append a row. */
  lemma {:induction false} SeededCountForNewOwner(before: seq<Category>, userId: int, nextId: int, fault: nat -> bool, n: nat)
    requires n <= |Defaults|
    requires forall c :: c in before ==> c.userId != userId
    ensures |SeededRows(before, userId, nextId, fault, n)| == Successes(fault, n)
  {
    if n > 0 {
      SeededCountForNewOwner(before, userId, nextId, fault, n - 1);
    }
  }

  /** With no fault, a new owner receives the nine pairs in order, numbered on from `nextId`. */
  lemma {:induction false} SeedingWithoutFaults(before: seq<Category>, userId: int, nextId: int, fault: nat -> bool, n: nat)
    requires n <= |Defaults|
    requires forall c :: c in before ==> c.userId != userId
    requires forall i :: !fault(i)
    ensures var r := SeededRows(before, userId, nextId, fault, n);
      && |r| == n
      && forall k :: 0 <= k < n ==> r[k] == Category(nextId + k, userId, Defaults[k].0, Some(Defaults[k].1))
  {
    if n > 0 {
      SeedingWithoutFaults(before, userId, nextId, fault, n - 1);
      var r := SeededRows(before, userId, nextId, fault, n - 1);
      assert SeedSucceeds(before, userId, fault, n - 1);
      var r' := SeededRows(before, userId, nextId, fault, n);
      assert r' == r + [Category(nextId + n - 1, userId, Defaults[n - 1].0, Some(Defaults[n - 1].1))];
      forall k | 0 <= k < n
        ensures r'[k] == Category(nextId + k, userId, Defaults[k].0, Some(Defaults[k].1))
      {
        if k < n - 1 {
          assert r'[k] == r[k];
        }
      }
    }
  }

  /** The owner's names among the seeded rows are those of earlier pairs, so the i-th name is free of them. */
  lemma SeededNameFree(before: seq<Category>, userId: int, nextId: int, fault: nat -> bool, i: nat)
    requires i < |Defaults|
    ensures NameTaken(before + SeededRows(before, userId, nextId, fault, i), userId, Defaults[i].0)
            == NameTaken(before, userId, Defaults[i].0)
  {
    var done := SeededRows(before, userId, nextId, fault, i);
    SeededRowsAreDefaults(before, userId, nextId, fault, i);
    DefaultsFit();
    forall c | c in done ensures c.name != Defaults[i].0 {
      var k :| 0 <= k < i && c.name == Defaults[k].0 && c.color == Some(Defaults[k].1);
    }
    forall c | c in before + done && c.userId == userId && c.name == Defaults[i].0 ensures c in before {
    }
  }

  /**
   * `create_default_categories`: tries each pair once, in order, each
   * independently of the others' outcome, and returns how many were
   * created. `fault(i)` stands for the store failing on the i-th INSERT.
   * The rows appended are exactly `SeededRows`; for an owner with no
   * categories yet, one per unfaulted pair (all nine when nothing faults).
   */
  method CreateDefaultCategories(db: Database, userId: int, fault: nat -> bool) returns (count: nat)
    requires db.Valid()
    modifies db`categories, db`nextCategoryId
    ensures db.Valid()
    ensures var added := SeededRows(old(db.categories), userId, old(db.nextCategoryId), fault, |Defaults|);
      && db.categories == old(db.categories) + added
      && db.nextCategoryId == old(db.nextCategoryId) + |added|
      && count == |added|
    ensures count <= |Defaults|
    ensures |db.categories| == |old(db.categories)| + count
    ensures db.categories[..|old(db.categories)|] == old(db.categories)
    ensures forall c :: c in db.categories[|old(db.categories)|..] ==> SeededRow(c, userId, |Defaults|)
    ensures (forall c :: c in old(db.categories) ==> c.userId != userId) ==> count == Successes(fault, |Defaults|)
  {
    ghost var before, nextId := db.categories, db.nextCategoryId;
    count := 0;
    var i := 0;
    while i < |Defaults|
      invariant 0 <= i <= |Defaults|
      invariant db.Valid()
      invariant db.categories == before + SeededRows(before, userId, nextId, fault, i)
      invariant db.nextCategoryId == nextId + |SeededRows(before, userId, nextId, fault, i)|
      invariant count == |SeededRows(before, userId, nextId, fault, i)|
    {
      var created := SeedAttempt(db, userId, i, fault, before, nextId);
      if created {
        count := count + 1;
      }
      i := i + 1;
    }
    SeedingOutcome(before, db.categories, userId, nextId, fault);
  }

  /** What the exact outcome of seeding implies about the appended rows and their number. */
  lemma SeedingOutcome(before: seq<Category>, after: seq<Category>, userId: int, nextId: int, fault: nat -> bool)
    requires after == before + SeededRows(before, userId, nextId, fault, |Defaults|)
    ensures |after| <= |before| + |Defaults|
    ensures after[..|before|] == before
    ensures forall c :: c in after[|before|..] ==> SeededRow(c, userId, |Defaults|)
    ensures (forall c :: c in before ==> c.userId != userId) ==>
              |after| == |before| + Successes(fault, |Defaults|)
  {
    assert after[|before|..] == SeededRows(before, userId, nextId, fault, |Defaults|);
    SeededRowsAreDefaults(before, userId, nextId, fault, |Defaults|);
    if forall c :: c in before ==> c.userId != userId {
      SeededCountForNewOwner(before, userId, nextId, fault, |Defaults|);
    }
  }

  /** The i-th INSERT of the seeding loop: the row for the i-th pair, appended exactly when the attempt succeeds. */
  method SeedAttempt(db: Database, userId: int, i: int, fault: nat -> bool, ghost before: seq<Category>, ghost nextId: int)
    returns (created: bool)
    requires db.Valid() && 0 <= i < |Defaults|
    requires db.categories == before + SeededRows(before, userId, nextId, fault, i)
    requires db.nextCategoryId == nextId + |SeededRows(before, userId, nextId, fault, i)|
    modifies db`categories, db`nextCategoryId
    ensures db.Valid()
    ensures db.categories == before + SeededRows(before, userId, nextId, fault, i + 1)
    ensures db.nextCategoryId == nextId + |SeededRows(before, userId, nextId, fault, i + 1)|
    ensures created == SeedSucceeds(before, userId, fault, i)
  {
    ghost var done := SeededRows(before, userId, nextId, fault, i);
    ghost var row := Category(nextId + |done|, userId, Defaults[i].0, Some(Defaults[i].1));
    DefaultFits(i, db.nextCategoryId, userId);
    SeededNameFree(before, userId, nextId, fault, i);
    SeededStep(before, userId, nextId, fault, i);
    var id := Create(db, userId, Defaults[i].0, Some(Defaults[i].1), fault(i));
    created := id.Some?;
    if created {
      assert (before + done) + [row] == before + (done + [row]);
    }
  }

  /** One more attempt appends its row, numbered next, exactly when it succeeds. */
  lemma SeededStep(before: seq<Category>, userId: int, nextId: int, fault: nat -> bool, i: nat)
    requires i < |Defaults|
    ensures var done := SeededRows(before, userId, nextId, fault, i);
      SeededRows(before, userId, nextId, fault, i + 1)
      == if SeedSucceeds(before, userId, fault, i)
         then done + [Category(nextId + |done|, userId, Defaults[i].0, Some(Defaults[i].1))]
         else done
  {
  }
}
