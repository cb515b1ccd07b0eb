/** The team handlers: create, list, list with members, fetch one, retitle and delete a team. A team
    is a title; its id is the row's key. */
module Teams {
  import opened Wrappers
  import Text
  import opened Numbers
  import opened Repository
  import opened ServerResponse
  import opened Requests

  /** models.Team without its id and the time stamps the database keeps. */
  datatype Team = Team(title: string)

  /** CreateTeam's check of the decoded payload: the title is trimmed and required. */
  function NewTeam(req: Team): (r: Result<Team, string>)
    ensures r.Ok? <==> Text.TrimSpace(req.title) != ""
    ensures r.Ok? ==> r.value.title == Text.TrimSpace(req.title)
    ensures r.Err? ==> r.error == "title is required"
  {
    var title := Text.TrimSpace(req.title);
    if title == "" then Err("title is required") else Ok(Team(title))
  }

  /** UpdateTeam's merge: the trimmed payload title replaces the stored one unless it is empty. */
  function Retitled(existing: Team, req: Team): (t: Team)
    ensures t.title == Overwrite(existing.title, req.title)
  {
    Team(Overwrite(existing.title, req.title))
  }

  /** A stored team's title is never blank: creating one requires it, and an update can only put
      another non-blank title in its place. A retitle that is accepted at creation gives the same
      title as creating the team afresh. */
  lemma TitleNeverBlank(existing: Team, req: Team)
    requires existing.title != ""
    ensures Retitled(existing, req).title != ""
    ensures NewTeam(req).Ok? ==> Retitled(existing, req) == NewTeam(req).value
    ensures NewTeam(req).Err? ==> Retitled(existing, req) == existing
  {
    OverwriteCannotClear(existing.title, req.title);
  }

  /** CreateTeam's normalisation as the handler performs it, trimming the request in place. */
  method PrepareTeam(request: Team) returns (r: Result<Team, string>)
    ensures r == NewTeam(request)
  {
    var req := request;
    req := req.(title := Text.TrimSpace(req.title));
    if req.title == "" {
      return Err("title is required");
    }
    r := Ok(req);
  }

  class TeamHandler {
    const teams: Table<Team>

    ghost predicate Valid()
      reads this, teams
    {
      teams.Valid()
    }

    constructor (teams: Table<Team>)
      requires teams.Valid()
      ensures this.teams == teams && Valid()
    {
      this.teams := teams;
    }

    /** CreateTeam: decode and check the payload, then insert it. */
    method CreateTeam(body: JsonBody<Team>, dbFails: bool) returns (reply: Reply)
      requires Valid()
      modifies teams
      ensures Valid()
      ensures ReadJSON(body).Err? ==>
        reply == BadRequest("invalid request payload: " + ReadJSON(body).error) && teams.rows == old(teams.rows)
      ensures ReadJSON(body).Ok? && NewTeam(ReadJSON(body).value).Err? ==>
        reply == BadRequest("title is required") && teams.rows == old(teams.rows)
      ensures ReadJSON(body).Ok? && NewTeam(ReadJSON(body).value).Ok? && dbFails ==>
        reply == ServerError(Some("failed to create team")) && teams.rows == old(teams.rows)
      ensures ReadJSON(body).Ok? && NewTeam(ReadJSON(body).value).Ok? && !dbFails ==>
        var id := old(teams.nextId);
        && id !in old(teams.rows)
        && teams.rows == old(teams.rows)[id := NewTeam(ReadJSON(body).value).value]
        && reply == Reply(StatusCreated, CreatedBody("Team created successfully", id))
    {
      var decoded := ReadJSON(body);
      if decoded.Err? {
        return BadRequest("invalid request payload: " + decoded.error);
      }
      var checked := PrepareTeam(decoded.value);
      if checked.Err? {
        return BadRequest(checked.error);
      }
      var id := teams.Create(checked.value, dbFails);
      if id.None? {
        return ServerError(Some("failed to create team"));
      }
      reply := Reply(StatusCreated, CreatedBody("Team created successfully", id.value));
    }

    /** GetTeam: the path id is parsed untrimmed; a missing team is a 400. */
    function GetTeam(idParam: string): (r: Result<Team, Reply>)
      reads this, teams
      ensures r.Ok? <==> ParseInt64(idParam).Some? && ParseInt64(idParam).value in teams.rows
      ensures r.Ok? ==> r.value == teams.rows[ParseInt64(idParam).value]
      ensures r.Err? ==> r.error == BadRequest(if ParseInt64(idParam).None? then "invalid team ID" else "team not found")
    {
      match ParseInt64(idParam)
      case None => Err(BadRequest("invalid team ID"))
      case Some(id) =>
        match teams.Get(id)
        case None => Err(BadRequest("team not found"))
        case Some(team) => Ok(team)
    }

    /** UpdateTeam: the path id is parsed untrimmed, and the stored team is fetched before the payload
        is read, so an unknown team is refused whatever the payload. Only the title can change. */
    method UpdateTeam(idParam: string, body: JsonBody<Team>, dbFails: bool) returns (reply: Reply)
      requires Valid()
      modifies teams
      ensures Valid()
      ensures ParseInt64(idParam).None? ==> reply == BadRequest("invalid team ID") && teams.rows == old(teams.rows)
      ensures ParseInt64(idParam).Some? && ParseInt64(idParam).value !in old(teams.rows) ==>
        reply == BadRequest("team not found") && teams.rows == old(teams.rows)
      ensures ParseInt64(idParam).Some? && ParseInt64(idParam).value in old(teams.rows) && ReadJSON(body).Err? ==>
        reply == BadRequest("invalid request payload: " + ReadJSON(body).error) && teams.rows == old(teams.rows)
      ensures ParseInt64(idParam).Some? && ParseInt64(idParam).value in old(teams.rows) && ReadJSON(body).Ok? && dbFails ==>
        reply == ServerError(Some("failed to update team")) && teams.rows == old(teams.rows)
      ensures ParseInt64(idParam).Some? && ParseInt64(idParam).value in old(teams.rows) && ReadJSON(body).Ok? && !dbFails ==>
        var id := ParseInt64(idParam).value;
        && teams.rows == old(teams.rows)[id := Retitled(old(teams.rows)[id], ReadJSON(body).value)]
        && reply == Reply(StatusOK, MessageBody("Team updated successfully"))
    {
      var parsed := ParseInt64(idParam);
      if parsed.None? {
        return BadRequest("invalid team ID");
      }
      var id := parsed.value;
      var fetched := teams.Get(id);
      if fetched.None? {
        return BadRequest("team not found");
      }
      var existing := fetched.value;
      var decoded := ReadJSON(body);
      if decoded.Err? {
        return BadRequest("invalid request payload: " + decoded.error);
      }
      var req := decoded.value;
      req := req.(title := Text.TrimSpace(req.title));
      if req.title != "" {
        existing := existing.(title := req.title);
      }
      var ok := teams.Update(id, existing, dbFails);
      if !ok {
        return ServerError(Some("failed to update team"));
      }
      reply := Reply(StatusOK, MessageBody("Team updated successfully"));
    }

    /** DeleteTeam: the path id is parsed untrimmed; a missing team surfaces as the repository's error,
        answered with a 500. */
    method DeleteTeam(idParam: string, dbFails: bool) returns (reply: Reply)
      requires Valid()
      modifies teams
      ensures Valid()
      ensures ParseInt64(idParam).None? ==> reply == BadRequest("invalid team ID") && teams.rows == old(teams.rows)
      ensures ParseInt64(idParam).Some? && (dbFails || ParseInt64(idParam).value !in old(teams.rows)) ==>
        reply == ServerError(Some("failed to delete team")) && teams.rows == old(teams.rows)
      ensures ParseInt64(idParam).Some? && !dbFails && ParseInt64(idParam).value in old(teams.rows) ==>
        teams.rows == old(teams.rows) - {ParseInt64(idParam).value} && reply == Reply(StatusOK, MessageBody("Team deleted successfully"))
    {
      var parsed := ParseInt64(idParam);
      if parsed.None? {
        return BadRequest("invalid team ID");
      }
      var ok := teams.Delete(parsed.value, dbFails);
      if !ok {
        return ServerError(Some("failed to delete team"));
      }
      reply := Reply(StatusOK, MessageBody("Team deleted successfully"));
    }
  }

  /** GetAllTeams: `fetch` stands for the repository's listing, None for its error. */
  function AllTeams(fetch: Option<seq<Team>>): (r: Reply)
    ensures r.code == StatusOK <==> fetch.Some?
    ensures fetch.None? ==> r == ServerError(Some("failed to retrieve teams"))
  {
    if fetch.None? then ServerError(Some("failed to retrieve teams")) else Reply(StatusOK, DataBody)
  }

  /** GetAllTeamsAndMembers: the teams with their members come from the member repository; None
      stands for its error. */
  function TeamsAndMembers<TeamData>(fetch: Option<seq<TeamData>>): (r: Reply)
    ensures r.code == StatusOK <==> fetch.Some?
    ensures fetch.None? ==> r == ServerError(Some("failed to retrieve team data"))
    ensures fetch.Some? ==> r.body == MessageBody("Teams and members fetched successfully")
  {
    if fetch.None? then ServerError(Some("failed to retrieve team data"))
    else Reply(StatusOK, MessageBody("Teams and members fetched successfully"))
  }
}
