/**
 * The transaction service (services/transaction_service.py): the checks a
 * request passes before it reaches the transaction model, the messages it
 * answers with, and the dashboard it assembles from the model's reads.
 */
module TransactionService {
  import opened Common
  import opened Text
  import opened Dates
  import opened Schema
  import opened TransactionModel
  import CategoryModel

  const MsgAddRequired: string := "Betrag, Typ und Kategorie sind erforderlich"
  const MsgAmountNotPositive: string := "Betrag muss größer als 0 sein"
  const MsgBadAmount: string := "Ungültiger Betrag"
  const MsgBadKind: string := "Ungültiger Transaktionstyp"
  const MsgBadDate: string := "Ungültiges Datumsformat"
  const MsgBadCategory: string := "Ungültige Kategorie"
  const MsgAdded: string := "Transaktion erfolgreich hinzugefügt!"
  const MsgAddFailed: string := "Fehler beim Hinzufügen der Transaktion"
  const MsgUpdated: string := "Transaktion erfolgreich aktualisiert!"
  const MsgUpdateFailed: string := "Fehler beim Aktualisieren der Transaktion"
  const MsgDeleted: string := "Transaktion erfolgreich gelöscht!"
  const MsgDeleteFailed: string := "Fehler beim Löschen der Transaktion"

  /** The outcome of a service's checks: the message of the first that fails, or what passes on. */
  datatype Checked<T> = Rejected(message: string) | Accepted(value: T)

  /** `transaction_type in ['income', 'expense']`, and which of the two it is. */
  function ParseKind(s: string): (k: Option<Kind>)
    ensures k == Some(Income) <==> s == "income"
    ensures k == Some(Expense) <==> s == "expense"
    ensures k.None? <==> s != "income" && s != "expense"
  {
    if s == "income" then Some(Income) else if s == "expense" then Some(Expense) else None
  }

  /** The text of the ENUM value. */
  function KindText(k: Kind): string {
    match k
    case Income => "income"
    case Expense => "expense"
  }

  lemma ParseKindText(k: Kind)
    ensures ParseKind(KindText(k)) == Some(k)
  {
  }

  // ---------------------------------------------------------------- add

  /**
   * The `date` handed on to `create`: none (the model uses the current
   * time), a blank text (not parsed, so the DATETIME column refuses it), or
   * the parsed day.
   */
  datatype DateArg = Now | Blank | OnDay(day: DateTime)

  /** The date handling of `add_transaction`: only a truthy text is parsed, and only it can be refused. */
  function ParseDate(date: Field): (r: Option<DateArg>)
    ensures date.Absent? ==> r == Some(Now)
    ensures date == Given("") ==> r == Some(Blank)
    ensures !Falsy(date) ==> (r.Some? <==> ParseYmd(date.text).Some?)
    ensures !Falsy(date) && r.Some? ==> r.value == OnDay(ParseYmd(date.text).value)
  {
    match date
    case Absent => Some(Now)
    case Given(s) =>
      if s == "" then Some(Blank)
      else match ParseYmd(s)
        case None => None
        case Some(d) => Some(OnDay(d))
  }

  function DateOf(d: DateArg): Option<DateTime> {
    if d.OnDay? then Some(d.day) else None
  }

  /** A request `add_transaction` has accepted. */
  datatype NewTransaction = NewTransaction(amount: int, kind: Kind, categoryId: int, date: DateArg)

  /**
   * The checks of `add_transaction`, in the order it makes them: the three
   * required fields, the amount, the type, the date, the category id.
   */
  function CheckAdd(amount: Field, kind: Field, categoryId: Field, date: Field): (r: Checked<NewTransaction>)
    ensures Falsy(amount) || Falsy(kind) || Falsy(categoryId) ==> r == Rejected(MsgAddRequired)
    ensures r.Accepted? <==>
              && !Falsy(amount) && !Falsy(kind) && !Falsy(categoryId)
              && ParseAmount(amount.text).Some? && ParseAmount(amount.text).value > 0
              && ParseKind(kind.text).Some? && ParseDate(date).Some? && ParseInt(categoryId.text).Some?
    ensures r.Accepted? ==>
              && r.value.amount > 0 && Some(r.value.amount) == ParseAmount(amount.text)
              && Some(r.value.kind) == ParseKind(kind.text)
              && Some(r.value.date) == ParseDate(date)
              && Some(r.value.categoryId) == ParseInt(categoryId.text)
    ensures !Falsy(amount) && !Falsy(kind) && !Falsy(categoryId) ==>
              && (ParseAmount(amount.text).None? ==> r == Rejected(MsgBadAmount))
              && (ParseAmount(amount.text).Some? && ParseAmount(amount.text).value <= 0 ==>
                    r == Rejected(MsgAmountNotPositive))
    ensures r.Rejected? ==>
              r.message in {MsgAddRequired, MsgBadAmount, MsgAmountNotPositive, MsgBadKind, MsgBadDate, MsgBadCategory}
  {
    if Falsy(amount) || Falsy(kind) || Falsy(categoryId) then Rejected(MsgAddRequired)
    else match ParseAmount(amount.text)
      case None => Rejected(MsgBadAmount)
      case Some(cents) =>
        if cents <= 0 then Rejected(MsgAmountNotPositive)
        else match ParseKind(kind.text)
          case None => Rejected(MsgBadKind)
          case Some(k) =>
            match ParseDate(date)
            case None => Rejected(MsgBadDate)
            case Some(d) =>
              match ParseInt(categoryId.text)
              case None => Rejected(MsgBadCategory)
              case Some(c) => Accepted(NewTransaction(cents, k, c, d))
  }

  /** A form filled in the way the pages print their values is accepted as those values. */
  lemma CanonicalRequestAccepted(cents: int, k: Kind, categoryId: int, day: DateTime)
    requires cents > 0
    requires IsCalendarDate(day.year, day.month, day.day)
    ensures CheckAdd(Given(AmountText(cents)), Given(KindText(k)), Given(IntText(categoryId)), Given(FormatYmd(day)))
            == Accepted(NewTransaction(cents, k, categoryId, OnDay(Midnight(day))))
  {
    ParseAmountText(cents);
    ParseIntText(categoryId);
    ParseFormat(day);
  }

  /** The row `create` is asked to insert for an accepted request. */
  function AddedRow(id: int, userId: int, v: NewTransaction, description: Option<string>, now: DateTime): Transaction {
    NewRow(id, userId, v.amount, v.kind, description, Some(v.categoryId), DateOf(v.date), now)
  }

  /**
   * `add_transaction`. A rejected request changes nothing. An accepted one
   * becomes one INSERT; it succeeds unless the store faults, the date was
   * blank, or the schema refuses the row (an unknown category id included).
   */
  method AddTransaction(db: Database, userId: int, amount: Field, kind: Field, categoryId: Field,
                        description: Option<string>, date: Field, now: DateTime, fault: bool)
    returns (success: bool, message: string)
    requires db.Valid()
    modifies db`transactions, db`nextTransactionId
    ensures db.Valid()
    ensures CheckAdd(amount, kind, categoryId, date).Rejected? ==>
              && !success && message == CheckAdd(amount, kind, categoryId, date).message
              && db.transactions == old(db.transactions) && db.nextTransactionId == old(db.nextTransactionId)
    ensures CheckAdd(amount, kind, categoryId, date).Accepted? ==>
              var v := CheckAdd(amount, kind, categoryId, date).value;
              var row := AddedRow(old(db.nextTransactionId), userId, v, description, now);
              && success == (!fault && !v.date.Blank? && TransactionFits(row, db.categories))
              && message == (if success then MsgAdded else MsgAddFailed)
              && db.transactions == (if success then old(db.transactions) + [row] else old(db.transactions))
              && db.nextTransactionId == old(db.nextTransactionId) + (if success then 1 else 0)
  {
    var checked := CheckAdd(amount, kind, categoryId, date);
    if checked.Rejected? {
      return false, checked.message;
    }
    var v := checked.value;
    success := Create(db, userId, v.amount, v.kind, description, Some(v.categoryId), DateOf(v.date), now,
                      fault || v.date.Blank?);
    message := if success then MsgAdded else MsgAddFailed;
  }

  /**
   * `add_transaction` accepts a category id that belongs to another user:
   * the foreign key only asks that the id exist. The row is then listed to
   * its owner under that other user's category name.
   */
  lemma ForeignCategoryAccepted(now: DateTime)
    ensures var categories := [Category(1, 1, "Miete", Some("#FF0000"))];
      var v := NewTransaction(1000, Expense, 1, Now);
      var row := AddedRow(1, 2, v, None, now);
      && CheckAdd(Given("10"), Given("expense"), Given("1"), Absent) == Accepted(v)
      && categories[0].userId != row.userId
      && TransactionFits(row, categories)
      && AllByUser([row], categories, 2)[0].categoryName == Some("Miete")
  {
    var categories := [Category(1, 1, "Miete", Some("#FF0000"))];
    var row := AddedRow(1, 2, NewTransaction(1000, Expense, 1, Now), None, now);
    TenParses();
    assert ParseInt("1") == Some(1);
    assert categories[0] in categories;
    SoleRowListed(row, categories);
  }

  lemma TenParses()
    ensures ParseAmount("10") == Some(1000)
  {
    assert Find("10", '.') == 2;
    assert "10"[..2] == "10" && "10"[..1] == "1" && "1"[..0] == [];
    assert Value("10") == 10;
    assert UnsignedCents("10") == Some(1000);
  }

  /** A table holding one row of the owner lists exactly that row, joined. */
  lemma SoleRowListed(row: Transaction, categories: seq<Category>)
    ensures AllByUser([row], categories, row.userId) == [Join(row, categories)]
  {
    var listing := AllByUser([row], categories, row.userId);
    assert OwnedBy([row], row.userId) == [row] by {
      assert [row][..0] == [];
    }
    assert |Rows(listing)| == |multiset(Rows(listing))| == 1;
    assert Rows(listing)[0] in [row];
  }

  /** The caller owns a category with that id. */
  predicate CallerOwns(categories: seq<Category>, id: int, userId: int) {
    exists c :: c in categories && CategoryModel.OwnsCategory(c, id, userId)
  }

  /**
   * `add_transaction` with the ownership check it lacks: an accepted request
   * whose category is not the caller's is refused as an invalid category;
   * everything else behaves as `AddTransaction`.
   */
  method AddTransactionOwnCategory(db: Database, userId: int, amount: Field, kind: Field, categoryId: Field,
                                   description: Option<string>, date: Field, now: DateTime, fault: bool)
    returns (success: bool, message: string)
    requires db.Valid()
    modifies db`transactions, db`nextTransactionId
    ensures db.Valid()
    ensures success ==> && |db.transactions| == |old(db.transactions)| + 1
                        && db.transactions[..|old(db.transactions)|] == old(db.transactions)
                        && var row := db.transactions[|old(db.transactions)|];
                           row.userId == userId && row.categoryId.Some?
                           && CallerOwns(db.categories, row.categoryId.value, userId)
    ensures !success ==> db.transactions == old(db.transactions)
    ensures db.nextTransactionId == old(db.nextTransactionId) + (if success then 1 else 0)
    ensures CheckAdd(amount, kind, categoryId, date).Accepted? &&
            !CallerOwns(db.categories, CheckAdd(amount, kind, categoryId, date).value.categoryId, userId)
            ==> !success && message == MsgBadCategory
  {
    var checked := CheckAdd(amount, kind, categoryId, date);
    if checked.Accepted? && CategoryModel.ById(db.categories, checked.value.categoryId, userId).None? {
      return false, MsgBadCategory;
    }
    success, message := AddTransaction(db, userId, amount, kind, categoryId, description, date, now, fault);
  }

  // ---------------------------------------------------------------- update

  /**
   * The keyword arguments of `update_transaction`, as the edit form hands
   * them on: text, and `Absent` for a key not passed.
   */
  datatype UpdateArgs = UpdateArgs(amount: Field, kind: Field, description: Field, date: Field, category: Field)

  /**
   * What the checks pass on to `Transaction.update`: the patch, and whether
   * the category text is one MySQL cannot convert to an id, so that the
   * UPDATE raises.
   */
  datatype UpdatePlan = UpdatePlan(patch: Patch, refused: bool)

  /** A category id given as text: stored as the number it reads as; `"0"` is not the integer 0. */
  function CategoryText(category: Field): (c: CategoryChange)
    ensures category.Absent? ==> c.Keep?
    ensures category.Given? && ParseInt(category.text).Some? ==> c == SetTo(ParseInt(category.text).value)
  {
    match category
    case Absent => Keep
    case Given(s) => match ParseInt(s) case Some(n) => SetTo(n) case None => Keep
  }

  /** The checks of `update_transaction`: only the supplied amount, type and date are checked. */
  function CheckUpdate(args: UpdateArgs): (r: Checked<UpdatePlan>)
    ensures r.Accepted? <==>
              && (args.amount.Given? ==> ParseAmount(args.amount.text).Some? && ParseAmount(args.amount.text).value > 0)
              && (args.kind.Given? ==> ParseKind(args.kind.text).Some?)
              && (args.date.Given? ==> ParseYmd(args.date.text).Some?)
    ensures args.amount.Given? && ParseAmount(args.amount.text).None? ==> r == Rejected(MsgBadAmount)
    ensures args.amount.Given? && ParseAmount(args.amount.text).Some? && ParseAmount(args.amount.text).value <= 0
            ==> r == Rejected(MsgAmountNotPositive)
    ensures r.Rejected? ==> r.message in {MsgBadAmount, MsgAmountNotPositive, MsgBadKind, MsgBadDate}
    ensures r.Accepted? ==> var p := r.value.patch;
              && (p.amount.Some? <==> args.amount.Given?)
              && (p.amount.Some? ==> Some(p.amount.value) == ParseAmount(args.amount.text) && p.amount.value > 0)
              && (p.kind.Some? <==> args.kind.Given?)
              && (p.kind.Some? ==> p.kind == ParseKind(args.kind.text))
              && (p.description.Some? <==> args.description.Given?)
              && (p.description.Some? ==> p.description.value == args.description.text)
              && (p.date.Some? <==> args.date.Given?)
              && (p.date.Some? ==> p.date == ParseYmd(args.date.text))
              && p.category == CategoryText(args.category)
              && (r.value.refused <==> args.category.Given? && ParseInt(args.category.text).None?)
  {
    var amount := if args.amount.Given? then ParseAmount(args.amount.text) else None;
    var kind := if args.kind.Given? then ParseKind(args.kind.text) else None;
    var date := if args.date.Given? then ParseYmd(args.date.text) else None;
    if args.amount.Given? && amount.None? then Rejected(MsgBadAmount)
    else if amount.Some? && amount.value <= 0 then Rejected(MsgAmountNotPositive)
    else if args.kind.Given? && kind.None? then Rejected(MsgBadKind)
    else if args.date.Given? && date.None? then Rejected(MsgBadDate)
    else
      var description := if args.description.Given? then Some(args.description.text) else None;
      var refused := args.category.Given? && ParseInt(args.category.text).None?;
      Accepted(UpdatePlan(Patch(amount, kind, description, date, CategoryText(args.category)), refused))
  }

  /** An edit that supplies nothing passes the checks with an empty patch, which `update` refuses. */
  lemma NothingSuppliedIsEmpty()
    ensures CheckUpdate(UpdateArgs(Absent, Absent, Absent, Absent, Absent)) ==
            Accepted(UpdatePlan(Patch(None, None, None, None, Keep), false))
    ensures Patch(None, None, None, None, Keep).IsEmpty()
  {
  }

  /**
   * The category text "0" is not the integer 0 of line 193: the UPDATE
   * stores 0, which no category has, and the foreign key refuses it.
   */
  lemma ZeroTextIsNotClear(t: Transaction, categories: seq<Category>, nextId: int)
    requires CategoriesValid(categories, nextId)
    ensures CheckUpdate(UpdateArgs(Absent, Absent, Absent, Absent, Given("0"))).value.patch.category == SetTo(0)
    ensures !TransactionFits(Patched(t, CheckUpdate(UpdateArgs(Absent, Absent, Absent, Absent, Given("0"))).value.patch),
                             categories)
  {
    assert ParseInt("0") == Some(0);
    forall c | c in categories ensures c.id != 0 {
      var i :| 0 <= i < |categories| && categories[i] == c;
    }
  }

  /**
   * `update_transaction`. A rejected edit changes nothing. An accepted one
   * is `Transaction.update` with the patch; an unconvertible category text
   * makes the statement raise.
   */
  method UpdateTransaction(db: Database, id: int, userId: int, args: UpdateArgs, fault: bool)
    returns (success: bool, message: string)
    requires db.Valid()
    modifies db`transactions
    ensures db.Valid()
    ensures CheckUpdate(args).Rejected? ==>
              !success && message == CheckUpdate(args).message && db.transactions == old(db.transactions)
    ensures CheckUpdate(args).Accepted? ==>
              var plan := CheckUpdate(args).value;
              && success == (!plan.patch.IsEmpty() && !fault && !plan.refused
                             && PatchFits(old(db.transactions), id, userId, plan.patch, db.categories)
                             && ChangesSomeRow(old(db.transactions), id, userId, plan.patch))
              && message == (if success then MsgUpdated else MsgUpdateFailed)
              && db.transactions == (if success then PatchRows(old(db.transactions), id, userId, plan.patch)
                                     else old(db.transactions))
  {
    var checked := CheckUpdate(args);
    if checked.Rejected? {
      return false, checked.message;
    }
    var plan := checked.value;
    success := Update(db, id, userId, plan.patch, fault || plan.refused);
    message := if success then MsgUpdated else MsgUpdateFailed;
  }

  /** `update_transaction` likewise moves a row to another user's category. */
  lemma ForeignCategoryOnUpdate(t: Transaction)
    requires t.userId == 2 && TransactionFits(t, [])
    ensures var categories := [Category(1, 1, "Miete", None)];
      var plan := CheckUpdate(UpdateArgs(Absent, Absent, Absent, Absent, Given("1")));
      && plan == Accepted(UpdatePlan(Patch(None, None, None, None, SetTo(1)), false))
      && TransactionFits(Patched(t, plan.value.patch), categories)
      && categories[0].userId != t.userId
  {
    var categories := [Category(1, 1, "Miete", None)];
    assert ParseInt("1") == Some(1);
    assert categories[0] in categories;
  }

  /**
   * `update_transaction` with the ownership check: a supplied category that
   * is not the caller's is refused; everything else behaves as
   * `UpdateTransaction`.
   */
  method UpdateTransactionOwnCategory(db: Database, id: int, userId: int, args: UpdateArgs, fault: bool)
    returns (success: bool, message: string)
    requires db.Valid()
    modifies db`transactions
    ensures db.Valid()
    ensures !success ==> db.transactions == old(db.transactions)
    ensures success ==> && CheckUpdate(args).Accepted?
                        && db.transactions == PatchRows(old(db.transactions), id, userId, CheckUpdate(args).value.patch)
    ensures success && CheckUpdate(args).value.patch.category.SetTo? ==>
              CallerOwns(db.categories, CheckUpdate(args).value.patch.category.id, userId)
  {
    var checked := CheckUpdate(args);
    if checked.Accepted? && checked.value.patch.category.SetTo?
       && CategoryModel.ById(db.categories, checked.value.patch.category.id, userId).None? {
      return false, MsgBadCategory;
    }
    success, message := UpdateTransaction(db, id, userId, args, fault);
  }

  // ---------------------------------------------------------------- delete

  /** `delete_transaction`: the model's delete and its message. */
  method DeleteTransaction(db: Database, id: int, userId: int, fault: bool)
    returns (success: bool, message: string)
    requires db.Valid()
    modifies db`transactions
    ensures db.Valid()
    ensures success == (!fault && exists t :: t in old(db.transactions) && Matches(t, id, userId))
    ensures db.transactions == (if success then Without(old(db.transactions), id, userId) else old(db.transactions))
    ensures message == (if success then MsgDeleted else MsgDeleteFailed)
  {
    success := Delete(db, id, userId, fault);
    message := if success then MsgDeleted else MsgDeleteFailed;
  }

  // ---------------------------------------------------------------- dashboard

  /** Python's `value or default` on a nullable text. */
  function OrElse(value: Option<string>, default: string): (r: string)
    ensures value.Some? && value.value != "" ==> r == value.value
    ensures value.None? || value.value == "" ==> r == default
  {
    if value.Some? && value.value != "" then value.value else default
  }

  /** One transaction as the dashboard template shows it. */
  datatype DisplayRow = DisplayRow(
    id: int,
    amount: int,
    kind: Kind,
    categoryName: string,
    categoryColor: string,
    description: string,
    date: string)

  /** One row of the list `get_dashboard_data` formats: a joined row with every gap filled. */
  function Display(j: Joined): (r: DisplayRow)
    ensures r.id == j.tx.id && r.amount == j.tx.amount && r.kind == j.tx.kind
    ensures r.categoryName != "" && r.categoryColor != ""
    ensures j.categoryName.Some? && j.categoryName.value != "" ==> r.categoryName == j.categoryName.value
    ensures j.categoryName.None? || j.categoryName.value == "" ==> r.categoryName == Uncategorized
    ensures j.categoryColor.Some? && j.categoryColor.value != "" ==> r.categoryColor == j.categoryColor.value
    ensures j.categoryColor.None? || j.categoryColor.value == "" ==> r.categoryColor == DefaultColor
    ensures r.description == j.tx.description.GetOr("")
  {
    DisplayRow(j.tx.id, j.tx.amount, j.tx.kind,
               OrElse(j.categoryName, Uncategorized), OrElse(j.categoryColor, DefaultColor),
               OrElse(j.tx.description, ""), FormatYmd(j.tx.date))
  }

  /** The date shown reads back as the stored day. */
  lemma DisplayedDateReadsBack(j: Joined)
    requires IsCalendarDate(j.tx.date.year, j.tx.date.month, j.tx.date.day)
    ensures ParseYmd(Display(j).date) == Some(Midnight(j.tx.date))
  {
    ParseFormat(j.tx.date);
  }

  /** An entry of the category dropdown. */
  datatype DropdownItem = DropdownItem(id: int, name: string, color: Option<string>)

  datatype Dashboard = Dashboard(
    transactions: seq<DisplayRow>,
    summary: Summary,
    categories: seq<DropdownItem>,
    chart: map<string, ChartEntry>)

  /** The formatting loop of `get_dashboard_data`: the listing formatted one row at a time. */
  method FormatRows(listing: seq<Joined>) returns (rows: seq<DisplayRow>)
    ensures |rows| == |listing|
    ensures forall i :: 0 <= i < |listing| ==> rows[i] == Display(listing[i])
  {
    rows := [];
    var i := 0;
    while i < |listing|
      invariant 0 <= i <= |listing|
      invariant |rows| == i
      invariant forall k :: 0 <= k < i ==> rows[k] == Display(listing[k])
    {
      rows := rows + [Display(listing[i])];
      i := i + 1;
    }
  }

  /** Every row shown is one of the owner's rows. */
  lemma ShownRowsAreOwned(txs: seq<Transaction>, categories: seq<Category>, userId: int, rows: seq<DisplayRow>)
    requires var listing := AllByUser(txs, categories, userId);
      |rows| == |listing| && forall i :: 0 <= i < |listing| ==> rows[i] == Display(listing[i])
    ensures forall r :: r in rows ==> exists t :: t in txs && t.userId == userId && t.id == r.id
  {
    var listing := AllByUser(txs, categories, userId);
    forall r | r in rows ensures exists t :: t in txs && t.userId == userId && t.id == r.id {
      var k :| 0 <= k < |rows| && rows[k] == r;
      assert Rows(listing)[k] in Rows(listing);
    }
  }

  /**
   * `get_dashboard_data`: the owner's listing formatted row by row, the
   * summary, the chart exactly as `get_by_category` returns it (no colour
   * for uncategorized expenses) and the owner's categories for the
   * dropdown, in name order. `summaryFault` and `chartFault` are those two
   * queries raising, which the service passes on as zeros and `{}`.
   */
  method GetDashboardData(db: Database, userId: int, summaryFault: bool, chartFault: bool) returns (d: Dashboard)
    ensures var listing := AllByUser(db.transactions, db.categories, userId);
      && |d.transactions| == |listing|
      && forall i :: 0 <= i < |listing| ==> d.transactions[i] == Display(listing[i])
    ensures forall r :: r in d.transactions ==> exists t :: t in db.transactions && t.userId == userId && t.id == r.id
    ensures d.summary == SummaryByUser(db.transactions, userId, summaryFault)
    ensures d.chart == ByCategory(db.transactions, db.categories, userId, chartFault, AsWritten)
    ensures var own := CategoryModel.AllByUser(db.categories, userId);
      && |d.categories| == |own|
      && forall i :: 0 <= i < |own| ==> d.categories[i] == DropdownItem(own[i].id, own[i].name, own[i].color)
  {
    var listing := AllByUser(db.transactions, db.categories, userId);
    var formatted := FormatRows(listing);
    ShownRowsAreOwned(db.transactions, db.categories, userId, formatted);
    var own := CategoryModel.AllByUser(db.categories, userId);
    var dropdown := seq(|own|, k requires 0 <= k < |own| => DropdownItem(own[k].id, own[k].name, own[k].color));
    d := Dashboard(formatted, SummaryByUser(db.transactions, userId, summaryFault), dropdown,
                   ByCategory(db.transactions, db.categories, userId, chartFault, AsWritten));
  }
}
