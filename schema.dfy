/**
 * The three tables of the budget tracker and the constraints the MySQL
 * schema enforces on them: AUTO_INCREMENT ids, UNIQUE(username),
 * UNIQUE(user_id, name), the foreign key from transactions.category_id to
 * categories.id, and the column widths. The database itself is one object
 * whose tables are sequences of rows; the model files change them only
 * through the statements of the source.
 */
module Schema {
  import opened Common
  import opened Dates
  import opened Passwords

  /** transactions.type, ENUM('income', 'expense'). */
  datatype Kind = Income | Expense

  /** users(id, username UNIQUE, password): the password column holds the hash. */
  datatype User = User(id: int, username: string, password: PasswordHash)

  /** categories(id, user_id NOT NULL, name, color), UNIQUE(user_id, name). */
  datatype Category = Category(id: int, userId: int, name: string, color: Option<string>)

  /** transactions(id, user_id, amount DECIMAL(12,2), type, description, date, category_id). */
  datatype Transaction = Transaction(
    id: int,
    userId: int,
    amount: int,   // in cents
    kind: Kind,
    description: Option<string>,
    date: DateTime,
    categoryId: Option<int>)

  /** Column widths: VARCHAR(190), VARCHAR(100), CHAR(7), VARCHAR(255), DECIMAL(12,2). */
  const UsernameWidth: nat := 190
  const CategoryNameWidth: nat := 100
  const ColorWidth: nat := 7
  const DescriptionWidth: nat := 255
  const MaxAmountCents: nat := 999_999_999_999

  /** The colour the source falls back to wherever none is given. */
  const DefaultColor: string := "#999999"

  predicate HasCategory(categories: seq<Category>, id: int) {
    exists c :: c in categories && c.id == id
  }

  /** A user row the users table accepts (strict SQL mode: over-long text is an error). */
  predicate UserFits(u: User) {
    |u.username| <= UsernameWidth
  }

  /** A category row the categories table accepts. */
  predicate CategoryFits(c: Category) {
    |c.name| <= CategoryNameWidth && (c.color.Some? ==> |c.color.value| <= ColorWidth)
  }

  /** A transaction row the transactions table accepts, foreign key included. */
  predicate TransactionFits(t: Transaction, categories: seq<Category>) {
    && -(MaxAmountCents as int) <= t.amount <= MaxAmountCents
    && (t.description.Some? ==> |t.description.value| <= DescriptionWidth)
    && (t.categoryId.Some? ==> HasCategory(categories, t.categoryId.value))
  }

  predicate UsersValid(users: seq<User>, nextId: int) {
    && 0 < nextId
    && (forall i :: 0 <= i < |users| ==> 0 < users[i].id < nextId)
    && (forall i, j :: 0 <= i < j < |users| ==> users[i].id != users[j].id)
    && (forall i, j :: 0 <= i < j < |users| ==> users[i].username != users[j].username)
    && (forall u :: u in users ==> UserFits(u))
  }

  /** Another owner's category may share a name; one owner's may not. */
  predicate CategoriesValid(categories: seq<Category>, nextId: int) {
    && 0 < nextId
    && (forall i :: 0 <= i < |categories| ==> 0 < categories[i].id < nextId)
    && (forall i, j :: 0 <= i < j < |categories| ==> categories[i].id != categories[j].id)
    && UniqueOwnerNames(categories)
    && (forall c :: c in categories ==> CategoryFits(c))
  }

  /** UNIQUE(user_id, name). */
  predicate UniqueOwnerNames(categories: seq<Category>) {
    forall i, j :: 0 <= i < j < |categories| ==>
      categories[i].userId != categories[j].userId || categories[i].name != categories[j].name
  }

  predicate TransactionsValid(transactions: seq<Transaction>, nextId: int, categories: seq<Category>) {
    && 0 < nextId
    && (forall i :: 0 <= i < |transactions| ==> 0 < transactions[i].id < nextId)
    && (forall i, j :: 0 <= i < j < |transactions| ==> transactions[i].id != transactions[j].id)
    && (forall t :: t in transactions ==> TransactionFits(t, categories))
  }

  /** The database: three tables and their AUTO_INCREMENT counters. */
  class Database {
    var users: seq<User>
    var categories: seq<Category>
    var transactions: seq<Transaction>
    var nextUserId: int
    var nextCategoryId: int
    var nextTransactionId: int

    ghost predicate Valid()
      reads this
    {
      && UsersValid(users, nextUserId)
      && CategoriesValid(categories, nextCategoryId)
      && TransactionsValid(transactions, nextTransactionId, categories)
    }

    /** An empty database, as the schema script leaves it. */
    constructor ()
      ensures Valid()
      ensures users == [] && categories == [] && transactions == []
    {
      users, categories, transactions := [], [], [];
      nextUserId, nextCategoryId, nextTransactionId := 1, 1, 1;
    }
  }
}
