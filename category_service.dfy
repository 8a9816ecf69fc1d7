/**
 * The category service (services/category_service.py): the checks made
 * before a category is created, renamed or deleted, the messages given,
 * and the two views of a user's categories.
 */
module CategoryService {
  import opened Common
  import opened Schema
  import opened CategoryModel

  const MsgNameRequired: string := "Kategorie-Name ist erforderlich"
  const MsgNameShort: string := "Kategorie-Name muss mindestens 2 Zeichen lang sein"
  const MsgNameLong: string := "Kategorie-Name darf maximal 100 Zeichen lang sein"
  const MsgNameTaken: string := "Eine Kategorie mit diesem Namen existiert bereits"
  const MsgCreated: string := "Kategorie erfolgreich erstellt!"
  const MsgCreateFailed: string := "Fehler beim Erstellen der Kategorie"
  const MsgNotFound: string := "Kategorie nicht gefunden"
  const MsgRenameShort: string := "Name muss mindestens 2 Zeichen lang sein"
  const MsgRenameLong: string := "Name darf maximal 100 Zeichen lang sein"
  const MsgUpdated: string := "Kategorie erfolgreich aktualisiert!"
  const MsgUpdateFailed: string := "Fehler beim Aktualisieren der Kategorie"
  const MsgDeleted: string := "Kategorie erfolgreich gelöscht!"
  const MsgDeleteFailed: string := "Fehler beim Löschen der Kategorie"

  const MinNameLength: nat := 2
  const MaxNameLength: nat := 100

  // ---------------------------------------------------------------- add

  /** The checks of `add_category`: the message of the first that fails. */
  function AddRejection(categories: seq<Category>, userId: int, name: Field): (r: Option<string>)
    ensures r.None? <==> && !Falsy(name) && MinNameLength <= |name.text| <= MaxNameLength
                         && !NameTaken(categories, userId, name.text)
    ensures Falsy(name) ==> r == Some(MsgNameRequired)
    ensures !Falsy(name) && MinNameLength <= |name.text| <= MaxNameLength && NameTaken(categories, userId, name.text)
            ==> r == Some(MsgNameTaken)
    ensures r.Some? ==> r.value in {MsgNameRequired, MsgNameShort, MsgNameLong, MsgNameTaken}
  {
    if Falsy(name) then Some(MsgNameRequired)
    else if |name.text| < MinNameLength then Some(MsgNameShort)
    else if |name.text| > MaxNameLength then Some(MsgNameLong)
    else if NameExists(categories, userId, name.text, None, false) then Some(MsgNameTaken)
    else None
  }

  /**
   * `add_category`. A rejected name changes nothing; otherwise the category
   * is created with the colour as passed, and the answer says whether the
   * INSERT went through.
   */
  method AddCategory(db: Database, name: Field, userId: int, color: Option<string>, fault: bool)
    returns (success: bool, message: string)
    requires db.Valid()
    modifies db`categories, db`nextCategoryId
    ensures db.Valid()
    ensures AddRejection(old(db.categories), userId, name).Some? ==>
              && !success && message == AddRejection(old(db.categories), userId, name).value
              && db.categories == old(db.categories) && db.nextCategoryId == old(db.nextCategoryId)
    ensures AddRejection(old(db.categories), userId, name).None? ==>
              var row := Category(old(db.nextCategoryId), userId, name.text, color);
              && success == (!fault && CategoryFits(row))
              && message == (if success then MsgCreated else MsgCreateFailed)
              && db.categories == (if success then old(db.categories) + [row] else old(db.categories))
              && db.nextCategoryId == old(db.nextCategoryId) + (if success then 1 else 0)
  {
    var rejection := AddRejection(db.categories, userId, name);
    if rejection.Some? {
      return false, rejection.value;
    }
    var id := Create(db, userId, name.text, color, fault);
    success := id.Some?;
    message := if success then MsgCreated else MsgCreateFailed;
  }

  /** Once a name is added, adding it again for the same owner is refused as taken. */
  lemma AddTwiceIsTaken(categories: seq<Category>, row: Category)
    requires MinNameLength <= |row.name| <= MaxNameLength
    ensures AddRejection(categories + [row], row.userId, Given(row.name)) == Some(MsgNameTaken)
  {
    assert (categories + [row])[|categories|] == row;
    assert row in categories + [row];
  }

  /** Another owner's name is no obstacle: the check is per owner. */
  lemma OtherOwnersNamesAreFree(categories: seq<Category>, userId: int, name: string)
    requires forall c :: c in categories ==> c.userId != userId
    requires MinNameLength <= |name| <= MaxNameLength
    ensures AddRejection(categories, userId, Given(name)) == None
  {
  }

  // ---------------------------------------------------------------- update

  /**
   * The checks of `update_category`: the category must be the caller's;
   * a truthy new name must have 2 to 100 characters and must not be the
   * name of another of the caller's categories. A falsy name is not checked.
   */
  function UpdateRejection(categories: seq<Category>, categoryId: int, userId: int, name: Option<string>)
    : (r: Option<string>)
    ensures ById(categories, categoryId, userId).None? ==> r == Some(MsgNotFound)
    ensures r.None? <==> && ById(categories, categoryId, userId).Some?
                         && (name.Some? && name.value != "" ==>
                               && MinNameLength <= |name.value| <= MaxNameLength
                               && !NameExists(categories, userId, name.value, Some(categoryId), false))
    ensures r.Some? ==> r.value in {MsgNotFound, MsgRenameShort, MsgRenameLong, MsgNameTaken}
  {
    if ById(categories, categoryId, userId).None? then Some(MsgNotFound)
    else if name.Some? && name.value != "" then
      if |name.value| < MinNameLength then Some(MsgRenameShort)
      else if |name.value| > MaxNameLength then Some(MsgRenameLong)
      else if NameExists(categories, userId, name.value, Some(categoryId), false) then Some(MsgNameTaken)
      else None
    else None
  }

  /**
   * `update_category`. A rejected request changes nothing; otherwise it is
   * `Category.update` with the name and colour as given.
   */
  method UpdateCategory(db: Database, categoryId: int, userId: int, name: Option<string>, color: Option<string>,
                        fault: bool)
    returns (success: bool, message: string)
    requires db.Valid()
    modifies db`categories
    ensures db.Valid()
    ensures UpdateRejection(old(db.categories), categoryId, userId, name).Some? ==>
              && !success && message == UpdateRejection(old(db.categories), categoryId, userId, name).value
              && db.categories == old(db.categories)
    ensures UpdateRejection(old(db.categories), categoryId, userId, name).None? ==>
              var after := UpdateRows(old(db.categories), categoryId, userId, name, color);
              && success == (!(name.None? && color.None?) && !fault
                             && UpdateFits(old(db.categories), categoryId, userId, name, color)
                             && UniqueOwnerNames(after) && after != old(db.categories))
              && message == (if success then MsgUpdated else MsgUpdateFailed)
              && db.categories == (if success then after else old(db.categories))
  {
    var rejection := UpdateRejection(db.categories, categoryId, userId, name);
    if rejection.Some? {
      return false, rejection.value;
    }
    success := Update(db, categoryId, userId, name, color, fault);
    message := if success then MsgUpdated else MsgUpdateFailed;
  }

  /** Keeping a category's own name passes the checks: its own row is excluded. */
  lemma OwnNamePassesChecks(categories: seq<Category>, nextId: int, k: int)
    requires CategoriesValid(categories, nextId)
    requires 0 <= k < |categories|
    requires MinNameLength <= |categories[k].name| <= MaxNameLength
    ensures var c := categories[k];
      UpdateRejection(categories, c.id, c.userId, Some(c.name)) == None
  {
    var c := categories[k];
    OwnNameIsFree(categories, nextId, k);
    assert c in categories && OwnsCategory(c, c.id, c.userId);
  }

  /**
   * ...but with no new colour the UPDATE then changes no row, so the answer
   * is the failure message.
   */
  lemma OwnNameAloneChangesNothing(categories: seq<Category>, nextId: int, k: int)
    requires CategoriesValid(categories, nextId)
    requires 0 <= k < |categories|
    ensures var c := categories[k];
      UpdateRows(categories, c.id, c.userId, Some(c.name), None) == categories
  {
    var c := categories[k];
    forall i | 0 <= i < |categories| && OwnsCategory(categories[i], c.id, c.userId)
      ensures Renamed(categories[i], Some(c.name), None) == categories[i]
    {
      assert i == k;
    }
  }

  /** Another of the owner's names is refused, whatever the category being renamed. */
  lemma OtherOwnNameIsTaken(categories: seq<Category>, nextId: int, k: int, j: int)
    requires CategoriesValid(categories, nextId)
    requires 0 <= k < |categories| && 0 <= j < |categories| && j != k
    requires categories[j].userId == categories[k].userId
    requires MinNameLength <= |categories[j].name| <= MaxNameLength
    ensures var c := categories[k];
      UpdateRejection(categories, c.id, c.userId, Some(categories[j].name)) == Some(MsgNameTaken)
  {
    var c, d := categories[k], categories[j];
    assert c in categories && OwnsCategory(c, c.id, c.userId);
    assert d in categories && d.id != c.id;
  }

  /** An empty name skips every check and is written as the empty name. */
  lemma EmptyNameIsStored(c: Category)
    ensures UpdateRejection([c], c.id, c.userId, Some("")) == None
    ensures Renamed(c, Some(""), None).name == ""
  {
    assert c in [c] && OwnsCategory(c, c.id, c.userId);
  }

  // ---------------------------------------------------------------- delete

  /** `delete_category`: only the caller's category is deleted; its transactions lose it. */
  method DeleteCategory(db: Database, categoryId: int, userId: int, fault: bool)
    returns (success: bool, message: string)
    requires db.Valid()
    modifies db`categories, db`transactions
    ensures db.Valid()
    ensures ById(old(db.categories), categoryId, userId).None? ==>
              && !success && message == MsgNotFound
              && db.categories == old(db.categories) && db.transactions == old(db.transactions)
    ensures ById(old(db.categories), categoryId, userId).Some? ==>
              && success == !fault
              && message == (if success then MsgDeleted else MsgDeleteFailed)
    ensures db.categories == (if success then WithoutCategory(old(db.categories), categoryId, userId)
                              else old(db.categories))
    ensures db.transactions == (if success then ClearReferences(old(db.transactions), categoryId)
                                else old(db.transactions))
  {
    if ById(db.categories, categoryId, userId).None? {
      return false, MsgNotFound;
    }
    success := Delete(db, categoryId, userId, fault);
    message := if success then MsgDeleted else MsgDeleteFailed;
  }

  // ---------------------------------------------------------------- views

  /** One category as `get_categories_as_dict` lists it. */
  datatype CategoryView = CategoryView(id: int, name: string, color: Option<string>, isStandard: bool, canEdit: bool)

  /**
   * `get_categories_as_dict`: the caller's categories in name order. Every
   * stored category has an owner, so none is standard and all are editable.
   */
  function CategoriesAsDict(categories: seq<Category>, userId: int): (r: seq<CategoryView>)
    ensures var own := AllByUser(categories, userId);
      && |r| == |own|
      && forall i :: 0 <= i < |r| ==> r[i].id == own[i].id && r[i].name == own[i].name && r[i].color == own[i].color
    ensures forall v :: v in r ==> !v.isStandard && v.canEdit
    ensures forall v :: v in r ==> exists c :: c in categories && c.userId == userId && c.id == v.id
  {
    var own := AllByUser(categories, userId);
    var r := seq(|own|, i requires 0 <= i < |own| => CategoryView(own[i].id, own[i].name, own[i].color, false, true));
    assert forall v :: v in r ==> exists i :: 0 <= i < |own| && v.id == own[i].id && own[i] in own;
    r
  }

  datatype CategoryStats = CategoryStats(total: nat, standard: nat, custom: nat)

  /** `get_category_stats`: every category of the caller is a custom one. */
  function CategoryStatsOf(categories: seq<Category>, userId: int): (s: CategoryStats)
    ensures s.total == |CategoriesOf(categories, userId)|
    ensures s.standard == 0 && s.custom == s.total
  {
    var own := AllByUser(categories, userId);
    assert |own| == |multiset(own)| == |multiset(CategoriesOf(categories, userId))|;
    CategoryStats(|own|, 0, |own|)
  }

  /** A category added for the caller raises the count by one; one for another owner leaves it. */
  lemma StatsAfterAdd(categories: seq<Category>, row: Category, userId: int)
    ensures CategoryStatsOf(categories + [row], userId).total
            == CategoryStatsOf(categories, userId).total + (if row.userId == userId then 1 else 0)
  {
    var all := categories + [row];
    assert all[..|all| - 1] == categories;
  }
}
