/** The member handlers: create with an optional profile image, list with query filters, fetch one,
    update with the image backup and restore sequence, and delete. */
module Members {
  import opened Wrappers
  import Text
  import opened Numbers
  import opened Paths
  import opened FileSystem
  import opened Repository
  import opened ServerResponse
  import opened Requests
  import opened ImageFiles
  import opened Uploads

  /** models.Member without its id, which is the row's key. */
  datatype Member = Member(name: string, teamId: int, designation: string, contact: string, note: string,
                           imageLink: string, showOnHomepage: bool)

  /** The text fields of the multipart form, as r.FormValue returns them. */
  datatype MemberForm = MemberForm(name: string, team: string, designation: string, contact: string, note: string,
                                   showOnHome: string)

  /** Where member images are stored: filepath.Join("data", "images"). */
  const Storage: string := Join("data", "images")

  /** The homepage flag of a submitted form: on exactly when the field holds one '1' with nothing but
      white space around it. */
  predicate ShowOnHome(form: MemberForm): (on: bool)
    ensures on <==> exists lo :: Text.TrimmedAt(form.showOnHome, lo, "1")
  {
    Text.TrimSpaceInfix(form.showOnHome);
    PaddedOneTrims(form.showOnHome);
    Text.TrimSpace(form.showOnHome) == "1"
  }

  // Used by ShowOnHome: a '1' with only white space around it trims to "1".
  lemma PaddedOneTrims(s: string)
    ensures (exists lo :: Text.TrimmedAt(s, lo, "1")) ==> Text.TrimSpace(s) == "1"
  {
    if lo :| Text.TrimmedAt(s, lo, "1") {
      Text.TrimSpaceUnique(s, lo, "1");
    }
  }

  /** The row CreateMember inserts, or the message of the 400 reply that refuses the form. */
  function NewMember(form: MemberForm): (r: Result<Member, string>)
    ensures r.Ok? <==> Text.TrimSpace(form.name) != "" && Text.TrimSpace(form.team) != ""
                       && Atoi(Text.TrimSpace(form.team)).Some?
    ensures r.Err? ==> r.error == if Text.TrimSpace(form.name) == "" || Text.TrimSpace(form.team) == ""
                                  then "name and team are required" else "invalid team id"
    ensures r.Ok? ==> r.value.name == Text.TrimSpace(form.name) && r.value.teamId == Atoi(Text.TrimSpace(form.team)).value
    ensures r.Ok? ==> r.value.designation == Text.TrimSpace(form.designation) && r.value.contact == Text.TrimSpace(form.contact)
                      && r.value.note == Text.TrimSpace(form.note)
    ensures r.Ok? ==> r.value.imageLink == "" && (r.value.showOnHomepage <==> ShowOnHome(form))
  {
    var name := Text.TrimSpace(form.name);
    var team := Text.TrimSpace(form.team);
    if name == "" || team == "" then Err("name and team are required")
    else match Atoi(team)
      case None => Err("invalid team id")
      case Some(teamId) =>
        Ok(Member(name, teamId, Text.TrimSpace(form.designation), Text.TrimSpace(form.contact),
                  Text.TrimSpace(form.note), "", ShowOnHome(form)))
  }

  /** UpdateMember's merge of the form into the stored row: text fields through Overwrite, the team only
      when the raw value parses as an int, the homepage flag always from the form, the image link kept. */
  function Merged(existing: Member, form: MemberForm): (m: Member)
    ensures m.name == Overwrite(existing.name, form.name)
    ensures m.teamId == if form.team != "" && Atoi(form.team).Some? then Atoi(form.team).value else existing.teamId
    ensures m.designation == Overwrite(existing.designation, form.designation)
    ensures m.contact == Overwrite(existing.contact, form.contact)
    ensures m.note == Overwrite(existing.note, form.note)
    ensures m.showOnHomepage <==> ShowOnHome(form)
    ensures m.imageLink == existing.imageLink
  {
    Member(Overwrite(existing.name, form.name),
           if form.team != "" && Atoi(form.team).Some? then Atoi(form.team).value else existing.teamId,
           Overwrite(existing.designation, form.designation),
           Overwrite(existing.contact, form.contact),
           Overwrite(existing.note, form.note),
           existing.imageLink,
           ShowOnHome(form))
  }

  /** A form with nothing but white space in its text fields and no usable team changes nothing but the
      homepage flag, which is cleared unless the form says "1". */
  lemma BlankFormOnlyResetsHomepageFlag(existing: Member, form: MemberForm)
    requires Text.AllSpace(form.name) && Text.AllSpace(form.designation) && Text.AllSpace(form.contact) && Text.AllSpace(form.note)
    requires Atoi(form.team).None?
    ensures Merged(existing, form) == existing.(showOnHomepage := ShowOnHome(form))
  {
  }

  /** The team is taken from the raw form value without trimming, so " 3" leaves the team unchanged
      where CreateMember, which trims, would accept it. */
  lemma UpdateTeamIsNotTrimmed(existing: Member, form: MemberForm)
    requires form.team == " 3"
    ensures Merged(existing, form).teamId == existing.teamId
    ensures Atoi(Text.TrimSpace(form.team)) == Some(3)
  {
    SpacedTeamRefused();
    TrimmedTeamParses();
  }

  lemma SpacedTeamRefused()
    ensures Atoi(" 3").None?
  {
    assert Unsigned(" 3") == " 3" && !IsDigit(" 3"[0]);
    assert !DecimalSyntax(" 3");
  }

  lemma TrimmedTeamParses()
    ensures Text.TrimSpace(" 3") == "3" && Atoi("3") == Some(3)
  {
    assert Text.TrimSpace(" 3") == Text.TrimSpace("3") by {
      assert Text.IsSpace(' ') && " 3"[1..] == "3";
    }
    assert Text.TrimSpace("3") == "3" by {
      assert !Text.IsSpace('3');
    }
    ThreeParses();
  }

  lemma ThreeParses()
    ensures Atoi("3") == Some(3)
  {
    ParseFormat(3);
    assert FormatInt(3) == "3";
  }

  /** The filters GetAllMembers hands to the repository. */
  datatype MemberFilter = MemberFilter(teamId: int, maxLimit: int, showOnHomepage: bool, designations: seq<string>)

  /** Trims every element of the array in place. */
  method TrimAll(a: array<string>)
    modifies a
    ensures forall i :: 0 <= i < a.Length ==> a[i] == Text.TrimSpace(old(a[i]))
  {
    for i := 0 to a.Length
      invariant forall j :: 0 <= j < i ==> a[j] == Text.TrimSpace(old(a[j]))
      invariant forall j :: i <= j < a.Length ==> a[j] == old(a[j])
    {
      a[i] := Text.TrimSpace(a[i]);
    }
  }

  const BadMaxLimit := "Invalid format for 'max_limit'. Must be an integer."
  const BadTeamId := "Invalid format for 'team_id'. Must be an integer."

  /** Every part, trimmed. */
  function TrimEach(parts: seq<string>): (r: seq<string>)
    ensures |r| == |parts|
    ensures forall i :: 0 <= i < |parts| ==> r[i] == Text.TrimSpace(parts[i])
  {
    if parts == [] then [] else [Text.TrimSpace(parts[0])] + TrimEach(parts[1..])
  }

  /** The query parsing of GetAllMembers: max_limit, then show_on_home (any value ParseBool refuses
      counts as false), then the comma-separated designations, each trimmed, then team_id. An absent
      or empty value leaves its filter at zero, false or the empty list. */
  function MemberQuery(q: Query): (r: Result<MemberFilter, Reply>)
    ensures var max := QueryValue(q, "max_limit");
      max != "" && ParseInt64(max).None? ==> r == Err(BadRequest(BadMaxLimit))
    ensures var max, team := QueryValue(q, "max_limit"), QueryValue(q, "team_id");
      (max == "" || ParseInt64(max).Some?) && team != "" && ParseInt64(team).None? ==> r == Err(BadRequest(BadTeamId))
    ensures var max, team := QueryValue(q, "max_limit"), QueryValue(q, "team_id");
      r.Ok? <==> (max == "" || ParseInt64(max).Some?) && (team == "" || ParseInt64(team).Some?)
    ensures var max, team := QueryValue(q, "max_limit"), QueryValue(q, "team_id");
      r.Ok? ==>
        && r.value.maxLimit == (if max == "" then 0 else ParseInt64(max).value)
        && r.value.teamId == (if team == "" then 0 else ParseInt64(team).value)
        && (r.value.showOnHomepage <==> Numbers.ParseBool(QueryValue(q, "show_on_home")) == Some(true))
    ensures var d := QueryValue(q, "designations");
      r.Ok? ==>
        && (d == "" ==> r.value.designations == [])
        && (d != "" ==> r.value.designations == TrimEach(Text.Split(d, ',')))
  {
    var max, team, d := QueryValue(q, "max_limit"), QueryValue(q, "team_id"), QueryValue(q, "designations");
    if max != "" && ParseInt64(max).None? then Err(BadRequest(BadMaxLimit))
    else if team != "" && ParseInt64(team).None? then Err(BadRequest(BadTeamId))
    else
      Ok(MemberFilter(
        if team == "" then 0 else ParseInt64(team).value,
        if max == "" then 0 else ParseInt64(max).value,
        Numbers.ParseBool(QueryValue(q, "show_on_home")) == Some(true),
        if d == "" then [] else TrimEach(Text.Split(d, ','))))
  }

  /** The designations filter has one entry per comma-separated part, so n commas give n + 1 entries,
      empty ones included. */
  lemma DesignationCount(q: Query)
    requires MemberQuery(q).Ok? && QueryValue(q, "designations") != ""
    ensures |MemberQuery(q).value.designations| == Text.Count(QueryValue(q, "designations"), ',') + 1
  {
    Text.SplitCount(QueryValue(q, "designations"), ',');
  }

  // Used by TrimAll: an array trimmed element by element holds TrimEach of the original.
  lemma TrimmedCopy(parts: seq<string>, trimmed: seq<string>)
    requires |trimmed| == |parts| && forall i :: 0 <= i < |parts| ==> trimmed[i] == Text.TrimSpace(parts[i])
    ensures trimmed == TrimEach(parts)
  {
  }

  /** GetAllMembers' parsing as the handler does it, trimming the split designations in place. */
  method ParseMemberQuery(q: Query) returns (r: Result<MemberFilter, Reply>)
    ensures r == MemberQuery(q)
  {
    var maxLimit := 0;
    var maxLimitStr := QueryValue(q, "max_limit");
    if maxLimitStr != "" {
      var val := ParseInt64(maxLimitStr);
      if val.None? {
        return Err(BadRequest(BadMaxLimit));
      }
      maxLimit := val.value;
    }

    var homepage := Numbers.ParseBool(QueryValue(q, "show_on_home"));
    var showOnHomepage := homepage == Some(true);

    var designations: seq<string> := [];
    var designationStr := QueryValue(q, "designations");
    if designationStr != "" {
      var parts := Text.Split(designationStr, ',');
      var a := new string[|parts|](i requires 0 <= i < |parts| => parts[i]);
      assert a[..] == parts;
      TrimAll(a);
      designations := a[..];
      TrimmedCopy(parts, designations);
    }

    var teamId := 0;
    var teamIdStr := QueryValue(q, "team_id");
    if teamIdStr != "" {
      var val := ParseInt64(teamIdStr);
      if val.None? {
        return Err(BadRequest(BadTeamId));
      }
      teamId := val.value;
    }
    r := Ok(MemberFilter(teamId, maxLimit, showOnHomepage, designations));
  }

  /** A malformed max_limit is reported even when team_id is malformed too: max_limit is read first. */
  lemma MaxLimitCheckedFirst(q: Query)
    requires QueryValue(q, "max_limit") != "" && ParseInt64(QueryValue(q, "max_limit")).None?
    requires QueryValue(q, "team_id") != "" && ParseInt64(QueryValue(q, "team_id")).None?
    ensures MemberQuery(q) == Err(BadRequest(BadMaxLimit))
  {
  }

  /** CreateMember's reading of the form: trim every field, require the name and the team, parse the
      team as an int. */
  method ReadMemberForm(form: MemberForm) returns (r: Result<Member, string>)
    ensures r == NewMember(form)
  {
    var name := Text.TrimSpace(form.name);
    var team := Text.TrimSpace(form.team);
    var designation := Text.TrimSpace(form.designation);
    var contact := Text.TrimSpace(form.contact);
    var note := Text.TrimSpace(form.note);
    var showOnHomepage := false;
    if Text.TrimSpace(form.showOnHome) == "1" {
      showOnHomepage := true;
    }
    if name == "" || team == "" {
      return Err("name and team are required");
    }
    var teamId := Atoi(team);
    if teamId.None? {
      return Err("invalid team id");
    }
    r := Ok(Member(name, teamId.value, designation, contact, note, "", showOnHomepage));
  }

  /** UpdateMember's merge as the handler performs it, one field after the other. */
  method ApplyMemberForm(existing: Member, form: MemberForm) returns (m: Member)
    ensures m == Merged(existing, form)
  {
    m := existing;
    var name := Text.TrimSpace(form.name);
    if name != "" {
      m := m.(name := name);
    }
    var teamId := Atoi(form.team);
    if form.team != "" && teamId.Some? {
      m := m.(teamId := teamId.value);
    }
    var designation := Text.TrimSpace(form.designation);
    if designation != "" {
      m := m.(designation := designation);
    }
    var contact := Text.TrimSpace(form.contact);
    if contact != "" {
      m := m.(contact := contact);
    }
    var note := Text.TrimSpace(form.note);
    if note != "" {
      m := m.(note := note);
    }
    if Text.TrimSpace(form.showOnHome) == "1" {
      m := m.(showOnHomepage := true);
    } else {
      m := m.(showOnHomepage := false);
    }
  }

  /** The filter GetLeadershipMessages hands to the repository: no team, no limit, no homepage flag, and
      the two leading designations. */
  const LeadersFilter := MemberFilter(0, 0, false, ["CHAIRMAN", "CEO & MANAGING DIRECTOR"])

  /** GetLeadershipMessages: `fetch` stands for the repository's filtered listing, None for its error. */
  function LeadershipMessages(fetch: MemberFilter -> Option<seq<Member>>): (r: Reply)
    ensures r.code == StatusOK <==> fetch(LeadersFilter).Some?
    ensures fetch(LeadersFilter).None? ==> r == ServerError(Some("failed to retrieve chairman info"))
    ensures fetch(LeadersFilter).Some? ==> r.body == MessageBody("Leadership messages retrieved successfully")
  {
    match fetch(LeadersFilter)
    case None => ServerError(Some("failed to retrieve chairman info"))
    case Some(_) => Reply(StatusOK, MessageBody("Leadership messages retrieved successfully"))
  }

  class MemberHandler {
    const members: Table<Member>
    const disk: Disk

    ghost predicate Valid()
      reads this, members
    {
      members.Valid()
    }

    constructor (members: Table<Member>, disk: Disk)
      requires members.Valid()
      ensures this.members == members && this.disk == disk && Valid()
    {
      this.members := members;
      this.disk := disk;
    }

    /** CreateMember. `formOk` says whether the multipart form parsed; a failure after the insert
        never removes the row, and a failed link update still answers 201. */
    method CreateMember(formOk: bool, form: MemberForm, upload: Upload, insertFails: bool, save: SaveFaults, linkFails: bool)
      returns (reply: Reply)
      requires Valid()
      modifies members, disk
      ensures Valid()
      ensures !formOk || NewMember(form).Err? || insertFails ==>
        members.rows == old(members.rows) && disk.files == old(disk.files)
      ensures !formOk ==> reply == BadRequest("file too large or invalid form data")
      ensures formOk && NewMember(form).Err? ==> reply == BadRequest(NewMember(form).error)
      ensures formOk && NewMember(form).Ok? && insertFails ==> reply == ServerError(Some("failed to save member info"))
      ensures formOk && NewMember(form).Ok? && !insertFails ==>
        var id, m := old(members.nextId), NewMember(form).value;
        && id !in old(members.rows)
        && (members.rows, disk.files, reply)
           == Attached(old(members.rows)[id := m], old(disk.files), Storage, "Member", id, m.name,
                       link => m.(imageLink := link), upload, save, linkFails)
    {
      if !formOk {
        return BadRequest("file too large or invalid form data");
      }
      var validated := ReadMemberForm(form);
      if validated.Err? {
        return BadRequest(validated.error);
      }
      reply := InsertMember(validated.value, upload, insertFails, save, linkFails);
    }

    /** The part of CreateMember after validation: insert the row, then attach the image. */
    method InsertMember(m: Member, upload: Upload, insertFails: bool, save: SaveFaults, linkFails: bool)
      returns (reply: Reply)
      requires Valid()
      modifies members, disk
      ensures Valid()
      ensures insertFails ==>
        members.rows == old(members.rows) && disk.files == old(disk.files)
        && reply == ServerError(Some("failed to save member info"))
      ensures !insertFails ==>
        var id := old(members.nextId);
        && id !in old(members.rows)
        && (members.rows, disk.files, reply)
           == Attached(old(members.rows)[id := m], old(disk.files), Storage, "Member", id, m.name,
                       link => m.(imageLink := link), upload, save, linkFails)
    {
      var created := members.Create(m, insertFails);
      if created.None? {
        return ServerError(Some("failed to save member info"));
      }
      var id := created.value;
      reply := AttachNewImage(members, disk, Storage, "Member", id, m.name,
                              link => m.(imageLink := link), upload, save, linkFails);
    }

    /** GetMember: the path id is parsed untrimmed; any repository error reads as "not found". */
    function GetMember(idParam: string): (r: Result<Member, Reply>)
      reads this, members
      ensures r.Ok? <==> ParseInt64(idParam).Some? && ParseInt64(idParam).value in members.rows
      ensures r.Ok? ==> r.value == members.rows[ParseInt64(idParam).value]
      ensures r.Err? ==> r.error == BadRequest(if ParseInt64(idParam).None? then "invalid member ID" else "member not found")
    {
      match ParseInt64(idParam)
      case None => Err(BadRequest("invalid member ID"))
      case Some(id) =>
        match members.Get(id)
        case None => Err(BadRequest("member not found"))
        case Some(m) => Ok(m)
    }

    /** GetAllMembers: `fetch` stands for the repository's filtered listing, None for its error. */
    method GetAllMembers(q: Query, fetch: MemberFilter -> Option<seq<Member>>) returns (reply: Reply, listed: seq<Member>)
      ensures MemberQuery(q).Err? ==> reply == MemberQuery(q).error && listed == []
      ensures MemberQuery(q).Ok? && fetch(MemberQuery(q).value).None? ==>
        reply == ServerError(Some("failed to retrieve members")) && listed == []
      ensures MemberQuery(q).Ok? && fetch(MemberQuery(q).value).Some? ==>
        reply == Reply(StatusOK, MessageBody("Members fetched successfully")) && listed == fetch(MemberQuery(q).value).value
    {
      var parsed := ParseMemberQuery(q);
      if parsed.Err? {
        return parsed.error, [];
      }
      var found := fetch(parsed.value);
      if found.None? {
        return ServerError(Some("failed to retrieve members")), [];
      }
      reply, listed := Reply(StatusOK, MessageBody("Members fetched successfully")), found.value;
    }

    /** UpdateMember. The id comes from the trimmed `id` query value; with a new image the backup,
        write, row update and clean-up follow Flow on the storage directory. */
    method UpdateMember(idParam: string, formOk: bool, form: MemberForm, upload: Upload, f: UpdateFaults)
      returns (reply: Reply)
      requires Valid()
      modifies members, disk
      ensures Valid()
      ensures var id := ParseInt64(Text.TrimSpace(idParam));
        id.None? || id.value !in old(members.rows) || !formOk || upload.BadFile? ==>
          members.rows == old(members.rows) && disk.files == old(disk.files)
      ensures ParseInt64(Text.TrimSpace(idParam)).None? ==> reply == BadRequest("invalid member ID")
      ensures var id := ParseInt64(Text.TrimSpace(idParam));
        id.Some? && id.value !in old(members.rows) ==> reply == BadRequest("member not found")
      ensures var id := ParseInt64(Text.TrimSpace(idParam));
        id.Some? && id.value in old(members.rows) && !formOk ==> reply == BadRequest("invalid form data")
      ensures var id := ParseInt64(Text.TrimSpace(idParam));
        id.Some? && id.value in old(members.rows) && formOk ==>
          var merged := Merged(old(members.rows)[id.value], form);
          match upload
          case BadFile => reply == BadRequest("failed to process image upload")
          case NoFile =>
            && disk.files == old(disk.files)
            && (f.dbUpdate ==> members.rows == old(members.rows) && reply == ServerError(Some("failed to update member")))
            && (!f.dbUpdate ==> members.rows == old(members.rows)[id.value := merged]
                                && reply == Reply(StatusOK, MessageBody("Member updated successfully")))
          case File(uploadName, data) =>
            var newName := ImageFileName(id.value, merged.name, uploadName);
            var (files, outcome) := Flow(old(disk.files), Storage, merged.imageLink, newName, data, f);
            && disk.files == files
            && match outcome
               case StageFailed(message) => members.rows == old(members.rows) && reply == ServerError(Some(message))
               case DbFailed => members.rows == old(members.rows) && reply == ServerError(Some("failed to update member"))
               case Committed =>
                 members.rows == old(members.rows)[id.value := merged.(imageLink := newName)]
                 && reply == Reply(StatusOK, MessageBody("Member updated successfully"))
    {
      var parsedId := ParseInt64(Text.TrimSpace(idParam));
      if parsedId.None? {
        return BadRequest("invalid member ID");
      }
      var id := parsedId.value;
      var fetched := members.Get(id);
      if fetched.None? {
        return BadRequest("member not found");
      }
      if !formOk {
        return BadRequest("invalid form data");
      }

      var existing := ApplyMemberForm(fetched.value, form);
      var newImage: Option<(string, Bytes)> := None;
      match upload {
        case BadFile =>
          return BadRequest("failed to process image upload");
        case NoFile =>
        case File(uploadName, data) =>
          newImage := Some((ImageFileName(id, existing.name, uploadName), data));
      }
      var outcome := UpdateWithImage(members, disk, Storage, id, existing, link => existing.(imageLink := link),
                                     existing.imageLink, newImage, f);
      reply := match outcome
        case StageFailed(message) => ServerError(Some(message))
        case DbFailed => ServerError(Some("failed to update member"))
        case Committed => Reply(StatusOK, MessageBody("Member updated successfully"));
    }

    /** DeleteMember: the row goes first; the image is then removed and a failure to remove it is
        ignored. A member without an image has the link "", so the removal is aimed at the storage
        directory itself; the disk holds no directories, so here that removal finds no file. */
    method DeleteMember(idParam: string, dbFails: bool, removeRefused: bool) returns (reply: Reply)
      requires Valid()
      modifies members, disk
      ensures Valid()
      ensures ParseInt64(Text.TrimSpace(idParam)).None? ==>
        reply == BadRequest("invalid member ID") && members.rows == old(members.rows) && disk.files == old(disk.files)
      ensures var id := ParseInt64(Text.TrimSpace(idParam));
        id.Some? && id.value !in old(members.rows) ==>
          reply == BadRequest("Member not found") && members.rows == old(members.rows) && disk.files == old(disk.files)
      ensures var id := ParseInt64(Text.TrimSpace(idParam));
        id.Some? && id.value in old(members.rows) && dbFails ==>
          reply == ServerError(Some("failed to delete member")) && members.rows == old(members.rows) && disk.files == old(disk.files)
      ensures var id := ParseInt64(Text.TrimSpace(idParam));
        id.Some? && id.value in old(members.rows) && !dbFails ==>
          && members.rows == old(members.rows) - {id.value}
          && disk.files == AfterRemove(old(disk.files), Join(Storage, old(members.rows)[id.value].imageLink), removeRefused).0
          && reply == Reply(StatusOK, MessageBody("Member deleted successfully"))
    {
      var parsedId := ParseInt64(Text.TrimSpace(idParam));
      if parsedId.None? {
        return BadRequest("invalid member ID");
      }
      var id := parsedId.value;
      var member := members.Get(id);
      if member.None? {
        assert id !in members.rows;
        return BadRequest("Member not found");
      }
      assert member.value == members.rows[id];
      var deleted := members.Delete(id, dbFails);
      if !deleted {
        return ServerError(Some("failed to delete member"));
      }
      var _ := disk.Remove(Join(Storage, member.value.imageLink), removeRefused);
      reply := Reply(StatusOK, MessageBody("Member deleted successfully"));
    }
  }
}
