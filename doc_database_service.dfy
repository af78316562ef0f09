/** The database service: creating a database with its first view, reading
    a database with its views, adding a view, and choosing the default view.
    Permissions are the verdicts of the space ability for the calling user;
    the ids and the time the database generates are parameters. */
module DocDatabaseService {
  import opened Wrappers
  import opened Json
  import opened DocDatabaseViews

  /** A row of `doc_databases`, without the schema and Yjs state the service
      leaves null. */
  datatype Database = Database(
    id: string,
    title: string,
    spaceId: string,
    workspaceId: string,
    creatorId: string,
    createdAt: int,
    updatedAt: int,
    deletedAt: Option<int>)

  datatype ServiceError = Forbidden | NotFound(message: string)

  /** The spaces in which the user may edit pages, and those in which they may read them. */
  datatype Abilities = Abilities(canEdit: set<string>, canRead: set<string>)

  /** The body of a create-view request; absent and null are both `None`. */
  datatype ViewInput = ViewInput(name: Option<string>, viewType: Option<string>, config: Option<Json>, isDefault: Option<bool>)

  /** '新数据库', the title of an untitled database. */
  const DefaultTitle := "新数据库"
  /** '表格', the name of a view nobody named. */
  const DefaultViewName := "表格"

  /** `DocDatabaseRepo.findById`: the row with the id, deleted or not. */
  function FindDatabase(databases: seq<Database>, databaseId: string): (r: Option<Database>)
    ensures r.None? <==> forall d :: d in databases ==> d.id != databaseId
    ensures r.Some? ==> r.value in databases && r.value.id == databaseId
  {
    if databases == [] then None
    else if databases[0].id == databaseId then Some(databases[0])
    else FindDatabase(databases[1..], databaseId)
  }

  /** The view `createView` inserts. */
  function NewView(input: ViewInput, viewId: string, databaseId: string, userId: string, workspaceId: string, now: int)
    : (v: View)
    ensures v.name == Some(input.name.GetOr(DefaultViewName))
    ensures v.viewType == input.viewType.GetOr("table") && v.config == input.config
    ensures v.isDefault == input.isDefault.GetOr(false)
    ensures v.id == viewId && v.databaseId == databaseId && v.createdAt == now && v.updatedAt == now && v.deletedAt.None?
  {
    View(viewId, Some(input.name.GetOr(DefaultViewName)), input.viewType.GetOr("table"), input.config,
         input.isDefault.GetOr(false), databaseId, Some(userId), workspaceId, now, now, None)
  }

  /** A view created as default is its database's only default, when its id
      is new. */
  lemma {:induction false} NewDefaultViewIsSole(rows: seq<View>, v: View, now: int)
    requires v.id !in Ids(rows)
    ensures var r := AfterSetDefault(rows + [v], v.databaseId, v.id, now);
      r[|rows|].isDefault
      && forall i :: 0 <= i < |rows| && r[i].databaseId == v.databaseId ==> !r[i].isDefault
  {
    var all := rows + [v];
    assert all[|rows|] == v;
    forall i | 0 <= i < |rows| ensures all[i].id != v.id {
      assert all[i] == rows[i];
      assert rows[i].id in Ids(rows);
    }
  }

  /** The databases and the view table the service works on. */
  class Service {
    var databases: seq<Database>
    const views: ViewTable

    constructor ()
      ensures databases == [] && fresh(views) && views.rows == []
    {
      databases := [];
      views := new ViewTable();
    }

    /** View ids are unique and no database has two default views. */
    predicate Valid()
      reads this, views
    {
      views.Valid() && AtMostOneDefault(views.rows)
    }

    /** `createDatabase`: refused without the right to edit pages of the space;
        otherwise the database (titled '新数据库' when no title is given) and
        one default table view named '表格'. */
    method CreateDatabase(userId: string, workspaceId: string, spaceId: string, title: Option<string>,
                          abilities: Abilities, newDatabaseId: string, newViewId: string, now: int)
      returns (r: Result<(Database, View), ServiceError>)
      requires Valid()
      requires forall i :: 0 <= i < |views.rows| ==> views.rows[i].databaseId != newDatabaseId
      requires newViewId !in Ids(views.rows)
      modifies this, views
      ensures Valid()
      ensures spaceId !in abilities.canEdit ==>
        r == Err(Forbidden) && databases == old(databases) && views.rows == old(views.rows)
      ensures spaceId in abilities.canEdit ==>
        var d := Database(newDatabaseId, title.GetOr(DefaultTitle), spaceId, workspaceId, userId, now, now, None);
        var v := View(newViewId, Some(DefaultViewName), "table", None, true, newDatabaseId, Some(userId),
                      workspaceId, now, now, None);
        r == Ok((d, v)) && databases == old(databases) + [d] && views.rows == old(views.rows) + [v]
    {
      if spaceId !in abilities.canEdit {
        return Err(Forbidden);
      }
      var database := Database(newDatabaseId, if title.Some? then title.value else DefaultTitle, spaceId,
                               workspaceId, userId, now, now, None);
      databases := databases + [database];
      var v := View(newViewId, Some(DefaultViewName), "table", None, true, newDatabaseId, Some(userId),
                    workspaceId, now, now, None);
      InsertKeepsAtMostOne(views.rows, v);
      var view := views.InsertView(v);
      return Ok((database, view));
    }

    /** `getInfo`: an unknown database is reported before permissions are
        checked; a reader gets the database and its views by creation time. */
    function GetInfo(databaseId: string, abilities: Abilities): (r: Result<(Database, seq<View>), ServiceError>)
      reads this, views
      ensures FindDatabase(databases, databaseId).None? ==> r == Err(NotFound("Database not found"))
      ensures FindDatabase(databases, databaseId).Some? ==>
        var d := FindDatabase(databases, databaseId).value;
        (d.spaceId !in abilities.canRead ==> r == Err(Forbidden))
        && (d.spaceId in abilities.canRead ==> r == Ok((d, views.ListByDatabaseId(databaseId))))
    {
      match FindDatabase(databases, databaseId)
      case None => Err(NotFound("Database not found"))
      case Some(d) =>
        if d.spaceId !in abilities.canRead then Err(Forbidden)
        else Ok((d, views.ListByDatabaseId(databaseId)))
    }

    /** `createView`: the view with its defaults, made the database's sole
        default when it is created as default. */
    method CreateView(userId: string, workspaceId: string, databaseId: string, input: ViewInput,
                      abilities: Abilities, newViewId: string, now: int)
      returns (r: Result<View, ServiceError>)
      requires Valid() && newViewId !in Ids(views.rows)
      modifies views
      ensures Valid()
      ensures FindDatabase(databases, databaseId).None? ==>
        r == Err(NotFound("Database not found")) && views.rows == old(views.rows)
      ensures FindDatabase(databases, databaseId).Some? && FindDatabase(databases, databaseId).value.spaceId !in abilities.canEdit ==>
        r == Err(Forbidden) && views.rows == old(views.rows)
      ensures FindDatabase(databases, databaseId).Some? && FindDatabase(databases, databaseId).value.spaceId in abilities.canEdit ==>
        var v := NewView(input, newViewId, databaseId, userId, workspaceId, now);
        r == Ok(v)
        && (v.isDefault ==> views.rows == AfterSetDefault(old(views.rows) + [v], databaseId, newViewId, now))
        && (!v.isDefault ==> views.rows == old(views.rows) + [v])
    {
      var database := FindDatabase(databases, databaseId);
      if database.None? {
        return Err(NotFound("Database not found"));
      }
      if database.value.spaceId !in abilities.canEdit {
        return Err(Forbidden);
      }
      var v := NewView(input, newViewId, databaseId, userId, workspaceId, now);
      if !v.isDefault {
        InsertKeepsAtMostOne(views.rows, v);
      }
      var view := views.InsertView(v);
      if view.isDefault {
        ghost var withView := views.rows;
        views.SetDefaultView(databaseId, view.id, now);
        assert AtMostOneDefault(views.rows) by {
          forall i, j | 0 <= i < |views.rows| && 0 <= j < |views.rows| && views.rows[i].isDefault
            && views.rows[j].isDefault && views.rows[i].databaseId == views.rows[j].databaseId
            ensures i == j
          {
            if views.rows[i].databaseId == databaseId {
              assert withView[i].id == newViewId && withView[j].id == newViewId;
            } else {
              assert i < |withView| - 1 && j < |withView| - 1;
              assert withView[i] == old(views.rows)[i] && withView[j] == old(views.rows)[j];
            }
          }
        }
      }
      return Ok(view);
    }

    /** `setDefaultView`: in this order, an unknown database, a missing right
        to edit, and a view that is missing or belongs to another database
        are refused, and nothing changes; otherwise the view becomes the
        database's only default. */
    method SetDefaultView(userId: string, databaseId: string, viewId: string, abilities: Abilities, now: int)
      returns (r: Result<bool, ServiceError>)
      requires Valid()
      modifies views
      ensures Valid()
      ensures FindDatabase(databases, databaseId).None? ==>
        r == Err(NotFound("Database not found")) && views.rows == old(views.rows)
      ensures FindDatabase(databases, databaseId).Some? && FindDatabase(databases, databaseId).value.spaceId !in abilities.canEdit ==>
        r == Err(Forbidden) && views.rows == old(views.rows)
      ensures FindDatabase(databases, databaseId).Some? && FindDatabase(databases, databaseId).value.spaceId in abilities.canEdit ==>
        var found := old(views.FindById(viewId));
        (found.None? || found.value.databaseId != databaseId ==>
          r == Err(NotFound("View not found")) && views.rows == old(views.rows))
        && (found.Some? && found.value.databaseId == databaseId ==>
          r == Ok(true) && views.rows == AfterSetDefault(old(views.rows), databaseId, viewId, now))
    {
      var database := FindDatabase(databases, databaseId);
      if database.None? {
        return Err(NotFound("Database not found"));
      }
      if database.value.spaceId !in abilities.canEdit {
        return Err(Forbidden);
      }
      var view := views.FindById(viewId);
      if view.None? || view.value.databaseId != databaseId {
        return Err(NotFound("View not found"));
      }
      views.SetDefaultView(databaseId, viewId, now);
      return Ok(true);
    }
  }

  /** After a successful `setDefaultView`, the chosen view is the only default
      view of its database. */
  lemma {:induction false} SetDefaultLeavesExactlyOne(rows: seq<View>, databaseId: string, viewId: string, now: int)
    requires UniqueIds(rows)
    requires FirstById(rows, viewId).Some? && FirstById(rows, viewId).value.databaseId == databaseId
    ensures var r := AfterSetDefault(rows, databaseId, viewId, now);
      exists k :: 0 <= k < |r| && r[k].id == viewId && r[k].isDefault
        && forall i :: 0 <= i < |r| && r[i].databaseId == databaseId && i != k ==> !r[i].isDefault
  {
    var r := AfterSetDefault(rows, databaseId, viewId, now);
    var v := FirstById(rows, viewId).value;
    var k :| 0 <= k < |rows| && rows[k] == v;
    assert r[k].id == viewId && r[k].isDefault;
    forall i | 0 <= i < |r| && r[i].databaseId == databaseId && i != k ensures !r[i].isDefault {
      if i < k { assert rows[i].id != rows[k].id; } else { assert rows[k].id != rows[i].id; }
    }
  }
}
