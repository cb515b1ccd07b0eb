/** The client handlers: create with an optional image, list by status, fetch one, update with the
    image backup and restore sequence, and delete. Client images live in their own directory. */
module Clients {
  import opened Wrappers
  import Text
  import opened Numbers
  import opened Paths
  import opened FileSystem
  import opened Repository
  import opened ServerResponse
  import opened Requests
  import opened ImageFiles
  import opened Uploads

  /** models.Client without its id, which is the row's key, and without the time stamps the database
      keeps. */
  datatype Client = Client(name: string, area: string, serviceName: string, serviceDate: string, status: string,
                           note: string, imageLink: string)

  /** The text fields of the multipart form, as r.FormValue returns them. */
  datatype ClientForm = ClientForm(name: string, area: string, serviceName: string, serviceDate: string,
                                   status: string, note: string)

  /** Where client images are stored: filepath.Join("data", "images", "clients"). */
  const Storage: string := Join(Join("data", "images"), "clients")

  /** The row CreateClient inserts, or the message of the 400 reply that refuses the form. */
  function NewClient(form: ClientForm): (r: Result<Client, string>)
    ensures r.Ok? <==> Text.TrimSpace(form.name) != "" && Text.TrimSpace(form.area) != ""
    ensures r.Err? ==> r.error == "name and area are required"
    ensures r.Ok? ==> r.value.name == Text.TrimSpace(form.name) && r.value.area == Text.TrimSpace(form.area)
    ensures r.Ok? ==> r.value.serviceName == Text.TrimSpace(form.serviceName)
                      && r.value.serviceDate == Text.TrimSpace(form.serviceDate)
                      && r.value.status == Text.TrimSpace(form.status) && r.value.note == Text.TrimSpace(form.note)
    ensures r.Ok? ==> r.value.imageLink == ""
  {
    var name := Text.TrimSpace(form.name);
    var area := Text.TrimSpace(form.area);
    if name == "" || area == "" then Err("name and area are required")
    else Ok(Client(name, area, Text.TrimSpace(form.serviceName), Text.TrimSpace(form.serviceDate),
                   Text.TrimSpace(form.status), Text.TrimSpace(form.note), ""))
  }

  /** UpdateClient's merge: each of the six text fields through Overwrite, the image link kept. */
  function Merged(existing: Client, form: ClientForm): (c: Client)
    ensures c.name == Overwrite(existing.name, form.name) && c.area == Overwrite(existing.area, form.area)
    ensures c.serviceName == Overwrite(existing.serviceName, form.serviceName)
    ensures c.serviceDate == Overwrite(existing.serviceDate, form.serviceDate)
    ensures c.status == Overwrite(existing.status, form.status) && c.note == Overwrite(existing.note, form.note)
    ensures c.imageLink == existing.imageLink
  {
    Client(Overwrite(existing.name, form.name), Overwrite(existing.area, form.area),
           Overwrite(existing.serviceName, form.serviceName), Overwrite(existing.serviceDate, form.serviceDate),
           Overwrite(existing.status, form.status), Overwrite(existing.note, form.note), existing.imageLink)
  }

  /** A form of blank fields leaves the client as it was, and a merged client is a fixed point of the
      same form. */
  lemma MergeKeepsBlankAndRepeats(existing: Client, form: ClientForm)
    ensures Text.AllSpace(form.name) && Text.AllSpace(form.area) && Text.AllSpace(form.serviceName)
            && Text.AllSpace(form.serviceDate) && Text.AllSpace(form.status) && Text.AllSpace(form.note)
            ==> Merged(existing, form) == existing
    ensures Merged(Merged(existing, form), form) == Merged(existing, form)
  {
  }

  /** CreateClient's reading of the form. */
  method ReadClientForm(form: ClientForm) returns (r: Result<Client, string>)
    ensures r == NewClient(form)
  {
    var name := Text.TrimSpace(form.name);
    var area := Text.TrimSpace(form.area);
    var serviceName := Text.TrimSpace(form.serviceName);
    var serviceDate := Text.TrimSpace(form.serviceDate);
    var status := Text.TrimSpace(form.status);
    var note := Text.TrimSpace(form.note);
    if name == "" || area == "" {
      return Err("name and area are required");
    }
    r := Ok(Client(name, area, serviceName, serviceDate, status, note, ""));
  }

  /** UpdateClient's merge as the handler performs it, one field after the other. */
  method ApplyClientForm(existing: Client, form: ClientForm) returns (c: Client)
    ensures c == Merged(existing, form)
  {
    c := existing;
    var name := Text.TrimSpace(form.name);
    if name != "" {
      c := c.(name := name);
    }
    var area := Text.TrimSpace(form.area);
    if area != "" {
      c := c.(area := area);
    }
    var serviceName := Text.TrimSpace(form.serviceName);
    if serviceName != "" {
      c := c.(serviceName := serviceName);
    }
    var serviceDate := Text.TrimSpace(form.serviceDate);
    if serviceDate != "" {
      c := c.(serviceDate := serviceDate);
    }
    var status := Text.TrimSpace(form.status);
    if status != "" {
      c := c.(status := status);
    }
    var note := Text.TrimSpace(form.note);
    if note != "" {
      c := c.(note := note);
    }
  }

  class ClientHandler {
    const clients: Table<Client>
    const disk: Disk

    ghost predicate Valid()
      reads this, clients
    {
      clients.Valid()
    }

    constructor (clients: Table<Client>, disk: Disk)
      requires clients.Valid()
      ensures this.clients == clients && this.disk == disk && Valid()
    {
      this.clients := clients;
      this.disk := disk;
    }

    /** CreateClient: insert the row, then attach the image; a failure after the insert never removes
        the row. */
    method CreateClient(formOk: bool, form: ClientForm, upload: Upload, insertFails: bool, save: SaveFaults, linkFails: bool)
      returns (reply: Reply)
      requires Valid()
      modifies clients, disk
      ensures Valid()
      ensures !formOk || NewClient(form).Err? || insertFails ==>
        clients.rows == old(clients.rows) && disk.files == old(disk.files)
      ensures !formOk ==> reply == BadRequest("file too large or invalid form data")
      ensures formOk && NewClient(form).Err? ==> reply == BadRequest(NewClient(form).error)
      ensures formOk && NewClient(form).Ok? && insertFails ==> reply == ServerError(Some("failed to save client info"))
      ensures formOk && NewClient(form).Ok? && !insertFails ==>
        var id, c := old(clients.nextId), NewClient(form).value;
        && id !in old(clients.rows)
        && (clients.rows, disk.files, reply)
           == Attached(old(clients.rows)[id := c], old(disk.files), Storage, "Client", id, c.name,
                       link => c.(imageLink := link), upload, save, linkFails)
    {
      if !formOk {
        return BadRequest("file too large or invalid form data");
      }
      var validated := ReadClientForm(form);
      if validated.Err? {
        return BadRequest(validated.error);
      }
      var newClient := validated.value;
      var created := clients.Create(newClient, insertFails);
      if created.None? {
        return ServerError(Some("failed to save client info"));
      }
      var id := created.value;
      reply := AttachNewImage(clients, disk, Storage, "Client", id, newClient.name,
                              link => newClient.(imageLink := link), upload, save, linkFails);
    }

    /** GetAllClients: `fetch` stands for the repository's listing by status, None for its error. */
    method GetAllClients(q: Query, fetch: string -> Option<seq<Client>>) returns (reply: Reply, listed: seq<Client>)
      ensures fetch(QueryValue(q, "status")).None? ==> reply == ServerError(Some("failed to retrieve clients")) && listed == []
      ensures fetch(QueryValue(q, "status")).Some? ==>
        reply == Reply(StatusOK, MessageBody("Clients fetched successfully")) && listed == fetch(QueryValue(q, "status")).value
    {
      var status := QueryValue(q, "status");
      var found := fetch(status);
      if found.None? {
        return ServerError(Some("failed to retrieve clients")), [];
      }
      reply, listed := Reply(StatusOK, MessageBody("Clients fetched successfully")), found.value;
    }

    /** GetClient: the path id is parsed untrimmed; a missing client is a 404. */
    function GetClient(idParam: string): (r: Result<Client, Reply>)
      reads this, clients
      ensures r.Ok? <==> ParseInt64(idParam).Some? && ParseInt64(idParam).value in clients.rows
      ensures r.Ok? ==> r.value == clients.rows[ParseInt64(idParam).value]
      ensures r.Err? ==> r.error == if ParseInt64(idParam).None? then BadRequest("invalid client ID")
                                   else NotFound("client not found")
    {
      match ParseInt64(idParam)
      case None => Err(BadRequest("invalid client ID"))
      case Some(id) =>
        match clients.Get(id)
        case None => Err(NotFound("client not found"))
        case Some(c) => Ok(c)
    }

    /** UpdateClient. The id comes from the trimmed `id` query value; with a new image the backup,
        write, row update and clean-up follow Flow on the clients directory. */
    method UpdateClient(idParam: string, formOk: bool, form: ClientForm, upload: Upload, f: UpdateFaults)
      returns (reply: Reply)
      requires Valid()
      modifies clients, disk
      ensures Valid()
      ensures var id := ParseInt64(Text.TrimSpace(idParam));
        id.None? || id.value !in old(clients.rows) || !formOk || upload.BadFile? ==>
          clients.rows == old(clients.rows) && disk.files == old(disk.files)
      ensures ParseInt64(Text.TrimSpace(idParam)).None? ==> reply == BadRequest("invalid client ID")
      ensures var id := ParseInt64(Text.TrimSpace(idParam));
        id.Some? && id.value !in old(clients.rows) ==> reply == NotFound("client not found")
      ensures var id := ParseInt64(Text.TrimSpace(idParam));
        id.Some? && id.value in old(clients.rows) && !formOk ==> reply == BadRequest("invalid form data or file too large")
      ensures var id := ParseInt64(Text.TrimSpace(idParam));
        id.Some? && id.value in old(clients.rows) && formOk ==>
          var merged := Merged(old(clients.rows)[id.value], form);
          match upload
          case BadFile => reply == BadRequest("failed to process image upload")
          case NoFile =>
            && disk.files == old(disk.files)
            && (f.dbUpdate ==> clients.rows == old(clients.rows) && reply == ServerError(Some("failed to update client")))
            && (!f.dbUpdate ==> clients.rows == old(clients.rows)[id.value := merged]
                                && reply == Reply(StatusOK, MessageBody("Client updated successfully")))
          case File(uploadName, data) =>
            var newName := ImageFileName(id.value, merged.name, uploadName);
            var (files, outcome) := Flow(old(disk.files), Storage, merged.imageLink, newName, data, f);
            && disk.files == files
            && match outcome
               case StageFailed(message) => clients.rows == old(clients.rows) && reply == ServerError(Some(message))
               case DbFailed => clients.rows == old(clients.rows) && reply == ServerError(Some("failed to update client"))
               case Committed =>
                 clients.rows == old(clients.rows)[id.value := merged.(imageLink := newName)]
                 && reply == Reply(StatusOK, MessageBody("Client updated successfully"))
    {
      var parsedId := ParseInt64(Text.TrimSpace(idParam));
      if parsedId.None? {
        return BadRequest("invalid client ID");
      }
      var id := parsedId.value;
      var fetched := clients.Get(id);
      if fetched.None? {
        return NotFound("client not found");
      }
      if !formOk {
        return BadRequest("invalid form data or file too large");
      }
      var existing := ApplyClientForm(fetched.value, form);
      var newImage: Option<(string, Bytes)> := None;
      match upload {
        case BadFile =>
          return BadRequest("failed to process image upload");
        case NoFile =>
        case File(uploadName, data) =>
          newImage := Some((ImageFileName(id, existing.name, uploadName), data));
      }
      var outcome := UpdateWithImage(clients, disk, Storage, id, existing, link => existing.(imageLink := link),
                                     existing.imageLink, newImage, f);
      reply := match outcome
        case StageFailed(message) => ServerError(Some(message))
        case DbFailed => ServerError(Some("failed to update client"))
        case Committed => Reply(StatusOK, MessageBody("Client updated successfully"));
    }

    /** DeleteClient: a missing client is a 404; otherwise the row goes first, then the image, and a
        failure to remove the image is ignored. As for members, an empty link aims the removal at the
        storage directory itself, which the disk here does not hold. */
    method DeleteClient(idParam: string, dbFails: bool, removeRefused: bool) returns (reply: Reply)
      requires Valid()
      modifies clients, disk
      ensures Valid()
      ensures ParseInt64(Text.TrimSpace(idParam)).None? ==>
        reply == BadRequest("invalid client ID") && clients.rows == old(clients.rows) && disk.files == old(disk.files)
      ensures var id := ParseInt64(Text.TrimSpace(idParam));
        id.Some? && id.value !in old(clients.rows) ==>
          reply == NotFound("Client not found") && clients.rows == old(clients.rows) && disk.files == old(disk.files)
      ensures var id := ParseInt64(Text.TrimSpace(idParam));
        id.Some? && id.value in old(clients.rows) && dbFails ==>
          reply == ServerError(Some("failed to delete client")) && clients.rows == old(clients.rows) && disk.files == old(disk.files)
      ensures var id := ParseInt64(Text.TrimSpace(idParam));
        id.Some? && id.value in old(clients.rows) && !dbFails ==>
          && clients.rows == old(clients.rows) - {id.value}
          && disk.files == AfterRemove(old(disk.files), Join(Storage, old(clients.rows)[id.value].imageLink), removeRefused).0
          && reply == Reply(StatusOK, MessageBody("Client deleted successfully"))
    {
      var parsedId := ParseInt64(Text.TrimSpace(idParam));
      if parsedId.None? {
        return BadRequest("invalid client ID");
      }
      var id := parsedId.value;
      var client := clients.Get(id);
      if client.None? {
        assert id !in clients.rows;
        return NotFound("Client not found");
      }
      assert client.value == clients.rows[id];
      var deleted := clients.Delete(id, dbFails);
      if !deleted {
        return ServerError(Some("failed to delete client"));
      }
      var _ := disk.Remove(Join(Storage, client.value.imageLink), removeRefused);
      reply := Reply(StatusOK, MessageBody("Client deleted successfully"));
    }
  }
}
