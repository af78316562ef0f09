/** The admission decision of the collaboration server (`onAuthenticate`):
    who may open a page or database document, and who gets it read-only.
    Verifying the token, the user, resource and role lookups are the server's
    state at the time of the call, given as maps. */
module CollabAuth {
  import opened Wrappers

  /** What `getCollabDocumentInfo` makes of the document name. */
  datatype DocumentInfo = DocumentInfo(docType: string, id: string)

  datatype JwtPayload = JwtPayload(sub: string, workspaceId: string)

  datatype User = User(id: string, deactivatedAt: Option<int>, deletedAt: Option<int>)

  /** A page or a database, as far as admission looks at it. */
  datatype Resource = Resource(id: string, spaceId: string)

  datatype SpaceRole = Admin | Writer | Reader

  datatype AuthError = Unauthorized(reason: Option<string>) | NotFound(message: string)

  /** The server's state: the payload of every token that verifies as a collab
      token, users by id and workspace, databases and pages by id, and the
      highest space role of a user in a space. */
  datatype Lookups = Lookups(
    verifiedTokens: map<string, JwtPayload>,
    users: map<(string, string), User>,
    databases: map<string, Resource>,
    pages: map<string, Resource>,
    highestRoles: map<(string, string), SpaceRole>)

  /** A successful admission: the user, and whether the connection is made
      read-only. */
  datatype Admission = Admission(user: User, readOnly: bool)

  /** The repository the resource is looked up in. */
  function ResourceRepo(info: DocumentInfo, l: Lookups): map<string, Resource> {
    if info.docType == "database" then l.databases else l.pages
  }

  predicate Active(u: User) {
    u.deactivatedAt.None? && u.deletedAt.None?
  }

  /** The decision chain, in the order of the source. */
  function Admit(info: DocumentInfo, token: string, l: Lookups): (r: Result<Admission, AuthError>)
    ensures token !in l.verifiedTokens ==> r == Err(Unauthorized(Some("Invalid collab token")))
    ensures r.Err? && r.error.NotFound? ==> r.error.message == "Resource not found"
    ensures r.Ok? ==> r.value.user in l.users.Values && Active(r.value.user)
  {
    if token !in l.verifiedTokens then Err(Unauthorized(Some("Invalid collab token")))
    else
      var jwt := l.verifiedTokens[token];
      if (jwt.sub, jwt.workspaceId) !in l.users then Err(Unauthorized(None))
      else
        var user := l.users[(jwt.sub, jwt.workspaceId)];
        if !Active(user) then Err(Unauthorized(None))
        else if info.id !in ResourceRepo(info, l) then Err(NotFound("Resource not found"))
        else
          var resource := ResourceRepo(info, l)[info.id];
          if (user.id, resource.spaceId) !in l.highestRoles then Err(Unauthorized(None))
          else Ok(Admission(user, l.highestRoles[(user.id, resource.spaceId)] == Reader))
  }

  /** Admission succeeds exactly when the token verifies, its user exists in its
      workspace and is active, the resource exists in the repository of its
      type, and the user has a role in the resource's space; the connection
      is read-only exactly for readers. */
  lemma {:induction false} AdmitIff(info: DocumentInfo, token: string, l: Lookups)
    ensures Admit(info, token, l).Ok? <==>
      token in l.verifiedTokens
      && (l.verifiedTokens[token].sub, l.verifiedTokens[token].workspaceId) in l.users
      && Active(l.users[(l.verifiedTokens[token].sub, l.verifiedTokens[token].workspaceId)])
      && info.id in ResourceRepo(info, l)
      && (l.users[(l.verifiedTokens[token].sub, l.verifiedTokens[token].workspaceId)].id,
          ResourceRepo(info, l)[info.id].spaceId) in l.highestRoles
    ensures Admit(info, token, l).Ok? ==>
      var jwt := l.verifiedTokens[token];
      var user := l.users[(jwt.sub, jwt.workspaceId)];
      Admit(info, token, l).value.user == user
      && (Admit(info, token, l).value.readOnly <==>
          l.highestRoles[(user.id, ResourceRepo(info, l)[info.id].spaceId)] == Reader)
  {
  }

  /** A missing resource is reported as not found only to an active user with
      a valid token; every other rejection is Unauthorized. */
  lemma {:induction false} NotFoundOnlyAfterUserChecks(info: DocumentInfo, token: string, l: Lookups)
    ensures Admit(info, token, l).Err? && Admit(info, token, l).error.NotFound? <==>
      token in l.verifiedTokens
      && (l.verifiedTokens[token].sub, l.verifiedTokens[token].workspaceId) in l.users
      && Active(l.users[(l.verifiedTokens[token].sub, l.verifiedTokens[token].workspaceId)])
      && info.id !in ResourceRepo(info, l)
  {
  }

  /** A database document is decided without looking at the pages, and any
      other document without looking at the databases. */
  lemma {:induction false} OnlyTheTypedRepositoryIsConsulted(info: DocumentInfo, token: string, l: Lookups,
                                          otherPages: map<string, Resource>, otherDatabases: map<string, Resource>)
    ensures info.docType == "database" ==> Admit(info, token, l) == Admit(info, token, l.(pages := otherPages))
    ensures info.docType != "database" ==> Admit(info, token, l) == Admit(info, token, l.(databases := otherDatabases))
  {
  }

  /** The collaboration connection. */
  class Connection {
    var readOnly: bool

    constructor (readOnly: bool)
      ensures this.readOnly == readOnly
    {
      this.readOnly := readOnly;
    }
  }

  /** `onAuthenticate`: returns `{ user }` or throws; a reader's connection
      is switched to read-only, any other connection is left as it was. */
  method OnAuthenticate(info: DocumentInfo, token: string, l: Lookups, connection: Connection)
    returns (r: Result<User, AuthError>)
    modifies connection
    ensures Admit(info, token, l).Err? ==> r == Err(Admit(info, token, l).error)
    ensures Admit(info, token, l).Ok? ==> r == Ok(Admit(info, token, l).value.user)
    ensures connection.readOnly ==
      (old(connection.readOnly) || (Admit(info, token, l).Ok? && Admit(info, token, l).value.readOnly))
  {
    if token !in l.verifiedTokens {
      return Err(Unauthorized(Some("Invalid collab token")));
    }
    var jwtPayload := l.verifiedTokens[token];
    if (jwtPayload.sub, jwtPayload.workspaceId) !in l.users {
      return Err(Unauthorized(None));
    }
    var user := l.users[(jwtPayload.sub, jwtPayload.workspaceId)];
    if user.deactivatedAt.Some? || user.deletedAt.Some? {
      return Err(Unauthorized(None));
    }
    var repo := if info.docType == "database" then l.databases else l.pages;
    if info.id !in repo {
      return Err(NotFound("Resource not found"));
    }
    var resource := repo[info.id];
    if (user.id, resource.spaceId) !in l.highestRoles {
      return Err(Unauthorized(None));
    }
    if l.highestRoles[(user.id, resource.spaceId)] == Reader {
      connection.readOnly := true;
    }
    return Ok(user);
  }
}
