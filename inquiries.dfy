/** The inquiry handlers: a visitor submits an inquiry, and an administrator lists, reads, amends and
    deletes inquiries. The record has the fields the handlers read and write. */
module Inquiries {
  import opened Wrappers
  import Text
  import opened Numbers
  import opened Repository
  import opened ServerResponse

  /** An inquiry as the handlers use it, without its id, which is the row's key, and without the dates
      the database keeps. */
  datatype Inquiry = Inquiry(name: string, mobile: string, email: string, subject: string, message: string, status: string)

  const DefaultStatus := "NEW"
  const AllRequired := "All fields are required"

  predicate Blank(s: string) {
    Text.TrimSpace(s) == ""
  }

  /** CreateInquiry's check of the decoded payload: the five text fields are trimmed and all required;
      the status is kept as sent, untrimmed, and "NEW" when empty. */
  function Submitted(req: Inquiry): (r: Result<Inquiry, string>)
    ensures r.Ok? <==> !Blank(req.name) && !Blank(req.mobile) && !Blank(req.email) && !Blank(req.subject) && !Blank(req.message)
    ensures r.Err? ==> r.error == AllRequired
    ensures r.Ok? ==> r.value.name == Text.TrimSpace(req.name) && r.value.mobile == Text.TrimSpace(req.mobile)
                      && r.value.email == Text.TrimSpace(req.email) && r.value.subject == Text.TrimSpace(req.subject)
                      && r.value.message == Text.TrimSpace(req.message)
    ensures r.Ok? ==> r.value.status == if req.status == "" then DefaultStatus else req.status
  {
    var trimmed := req.(name := Text.TrimSpace(req.name), mobile := Text.TrimSpace(req.mobile),
                        email := Text.TrimSpace(req.email), subject := Text.TrimSpace(req.subject),
                        message := Text.TrimSpace(req.message));
    if trimmed.name == "" || trimmed.mobile == "" || trimmed.email == "" || trimmed.subject == "" || trimmed.message == "" then
      Err(AllRequired)
    else
      Ok(trimmed.(status := if req.status == "" then DefaultStatus else req.status))
  }

  /** A stored inquiry always has a status, its text fields carry no surrounding white space, and
      checking it again gives it back unchanged. */
  lemma SubmittedIsNormal(req: Inquiry)
    requires Submitted(req).Ok?
    ensures var s := Submitted(req).value;
      s.status != "" && Submitted(s) == Ok(s)
  {
    var s := Submitted(req).value;
    Text.TrimSpaceIdempotent(req.name);
    Text.TrimSpaceIdempotent(req.mobile);
    Text.TrimSpaceIdempotent(req.email);
    Text.TrimSpaceIdempotent(req.subject);
    Text.TrimSpaceIdempotent(req.message);
  }

  /** A status of white space only is not replaced by the default and is stored as it came. */
  lemma BlankStatusIsKept(req: Inquiry)
    requires Submitted(req).Ok? && req.status != "" && Blank(req.status)
    ensures Submitted(req).value.status == req.status
  {
  }

  /** CreateInquiry's normalisation as the handler performs it, trimming the request's fields in
      place before checking them. */
  method PrepareInquiry(request: Inquiry) returns (r: Result<Inquiry, string>)
    ensures r == Submitted(request)
  {
    var req := request;
    req := req.(name := Text.TrimSpace(req.name));
    req := req.(mobile := Text.TrimSpace(req.mobile));
    req := req.(email := Text.TrimSpace(req.email));
    req := req.(subject := Text.TrimSpace(req.subject));
    req := req.(message := Text.TrimSpace(req.message));
    if req.name == "" || req.mobile == "" || req.email == "" || req.subject == "" || req.message == "" {
      return Err(AllRequired);
    }
    if req.status == "" {
      req := req.(status := DefaultStatus);
    }
    r := Ok(req);
  }

  /** UpdateInquiry's merge: every non-empty payload field replaces the stored one as it is, without
      trimming; an empty field leaves the stored value. */
  function Patched(existing: Inquiry, req: Inquiry): (r: Inquiry)
    ensures req.name != "" ==> r.name == req.name
    ensures req.name == "" ==> r.name == existing.name
    ensures req.mobile != "" ==> r.mobile == req.mobile
    ensures req.mobile == "" ==> r.mobile == existing.mobile
    ensures req.email != "" ==> r.email == req.email
    ensures req.email == "" ==> r.email == existing.email
    ensures req.subject != "" ==> r.subject == req.subject
    ensures req.subject == "" ==> r.subject == existing.subject
    ensures req.message != "" ==> r.message == req.message
    ensures req.message == "" ==> r.message == existing.message
    ensures req.status != "" ==> r.status == req.status
    ensures req.status == "" ==> r.status == existing.status
  {
    Inquiry(if req.name != "" then req.name else existing.name,
            if req.mobile != "" then req.mobile else existing.mobile,
            if req.email != "" then req.email else existing.email,
            if req.subject != "" then req.subject else existing.subject,
            if req.message != "" then req.message else existing.message,
            if req.status != "" then req.status else existing.status)
  }

  /** Sending the same payload twice gives what sending it once gave, an all-empty payload changes
      nothing, and a payload with every field filled replaces the inquiry outright. */
  lemma PatchLaws(existing: Inquiry, req: Inquiry)
    ensures Patched(Patched(existing, req), req) == Patched(existing, req)
    ensures Patched(existing, Inquiry("", "", "", "", "", "")) == existing
    ensures req.name != "" && req.mobile != "" && req.email != "" && req.subject != "" && req.message != "" && req.status != ""
            ==> Patched(existing, req) == req
  {
  }

  /** Unlike the create check, an update stores white space as it was sent: a field can be set to a
      blank value that a new inquiry would be refused for. */
  lemma PatchCanBlankAField(existing: Inquiry, req: Inquiry)
    requires req.name != "" && Blank(req.name)
    ensures Blank(Patched(existing, req).name)
    ensures Submitted(Patched(existing, req)).Err?
  {
  }

  /** UpdateInquiry's merge as the handler performs it, field after field. */
  method ApplyInquiryPatch(existing: Inquiry, req: Inquiry) returns (r: Inquiry)
    ensures r == Patched(existing, req)
  {
    r := existing;
    if req.name != "" {
      r := r.(name := req.name);
    }
    if req.mobile != "" {
      r := r.(mobile := req.mobile);
    }
    if req.email != "" {
      r := r.(email := req.email);
    }
    if req.subject != "" {
      r := r.(subject := req.subject);
    }
    if req.message != "" {
      r := r.(message := req.message);
    }
    if req.status != "" {
      r := r.(status := req.status);
    }
  }

  /** GetAllInquiries: `list` and `counts` stand for the repository's two queries, None for an error;
      the list is fetched and checked first. */
  function AllInquiries(list: Option<seq<Inquiry>>, counts: Option<map<string, int>>): (r: Reply)
    ensures r.code == StatusOK <==> list.Some? && counts.Some?
    ensures list.None? ==> r == ServerError(Some("failed to retrieve inquiries"))
    ensures list.Some? && counts.None? ==> r == ServerError(Some("failed to retrieve inquiry stats"))
  {
    if list.None? then ServerError(Some("failed to retrieve inquiries"))
    else if counts.None? then ServerError(Some("failed to retrieve inquiry stats"))
    else Reply(StatusOK, DataBody)
  }

  class InquiryHandler {
    const inquiries: Table<Inquiry>

    ghost predicate Valid()
      reads this, inquiries
    {
      inquiries.Valid()
    }

    constructor (inquiries: Table<Inquiry>)
      requires inquiries.Valid()
      ensures this.inquiries == inquiries && Valid()
    {
      this.inquiries := inquiries;
    }

    /** CreateInquiry: decode, normalise and check the payload, then insert it. */
    method CreateInquiry(body: JsonBody<Inquiry>, dbFails: bool) returns (reply: Reply)
      requires Valid()
      modifies inquiries
      ensures Valid()
      ensures ReadJSON(body).Err? ==>
        reply == BadRequest("invalid request payload: " + ReadJSON(body).error) && inquiries.rows == old(inquiries.rows)
      ensures ReadJSON(body).Ok? && Submitted(ReadJSON(body).value).Err? ==>
        reply == BadRequest(AllRequired) && inquiries.rows == old(inquiries.rows)
      ensures ReadJSON(body).Ok? && Submitted(ReadJSON(body).value).Ok? && dbFails ==>
        reply == ServerError(Some("failed to submit inquiry")) && inquiries.rows == old(inquiries.rows)
      ensures ReadJSON(body).Ok? && Submitted(ReadJSON(body).value).Ok? && !dbFails ==>
        var id := old(inquiries.nextId);
        && id !in old(inquiries.rows)
        && inquiries.rows == old(inquiries.rows)[id := Submitted(ReadJSON(body).value).value]
        && reply == Reply(StatusCreated, CreatedBody("Inquiry submitted successfully", id))
    {
      var decoded := ReadJSON(body);
      if decoded.Err? {
        return BadRequest("invalid request payload: " + decoded.error);
      }
      var checked := PrepareInquiry(decoded.value);
      if checked.Err? {
        return BadRequest(checked.error);
      }
      var id := inquiries.Create(checked.value, dbFails);
      if id.None? {
        return ServerError(Some("failed to submit inquiry"));
      }
      reply := Reply(StatusCreated, CreatedBody("Inquiry submitted successfully", id.value));
    }

    /** GetInquiry: the path id is parsed untrimmed; a missing inquiry is a 400, not a 404. */
    function GetInquiry(idParam: string): (r: Result<Inquiry, Reply>)
      reads this, inquiries
      ensures r.Ok? <==> ParseInt64(idParam).Some? && ParseInt64(idParam).value in inquiries.rows
      ensures r.Ok? ==> r.value == inquiries.rows[ParseInt64(idParam).value]
      ensures r.Err? ==> r.error == BadRequest(if ParseInt64(idParam).None? then "invalid inquiry ID" else "inquiry not found")
    {
      match ParseInt64(idParam)
      case None => Err(BadRequest("invalid inquiry ID"))
      case Some(id) =>
        match inquiries.Get(id)
        case None => Err(BadRequest("inquiry not found"))
        case Some(inquiry) => Ok(inquiry)
    }

    /** UpdateInquiry: the id is the trimmed `id` query value. The stored inquiry is fetched before the
        payload is read, so an unknown id is refused whatever the payload. */
    method UpdateInquiry(idParam: string, body: JsonBody<Inquiry>, dbFails: bool) returns (reply: Reply)
      requires Valid()
      modifies inquiries
      ensures Valid()
      ensures ParseInt64(Text.TrimSpace(idParam)).None? ==>
        reply == BadRequest("invalid inquiry ID") && inquiries.rows == old(inquiries.rows)
      ensures var id := ParseInt64(Text.TrimSpace(idParam));
        id.Some? && id.value !in old(inquiries.rows) ==>
          reply == BadRequest("inquiry not found") && inquiries.rows == old(inquiries.rows)
      ensures var id := ParseInt64(Text.TrimSpace(idParam));
        id.Some? && id.value in old(inquiries.rows) && ReadJSON(body).Err? ==>
          reply == BadRequest("invalid request payload: " + ReadJSON(body).error) && inquiries.rows == old(inquiries.rows)
      ensures var id := ParseInt64(Text.TrimSpace(idParam));
        id.Some? && id.value in old(inquiries.rows) && ReadJSON(body).Ok? && dbFails ==>
          reply == ServerError(Some("failed to update inquiry")) && inquiries.rows == old(inquiries.rows)
      ensures var id := ParseInt64(Text.TrimSpace(idParam));
        id.Some? && id.value in old(inquiries.rows) && ReadJSON(body).Ok? && !dbFails ==>
          && inquiries.rows == old(inquiries.rows)[id.value := Patched(old(inquiries.rows)[id.value], ReadJSON(body).value)]
          && reply == Reply(StatusOK, MessageBody("Inquiry updated successfully"))
    {
      var parsed := ParseInt64(Text.TrimSpace(idParam));
      if parsed.None? {
        return BadRequest("invalid inquiry ID");
      }
      var id := parsed.value;
      var existing := inquiries.Get(id);
      if existing.None? {
        return BadRequest("inquiry not found");
      }
      var decoded := ReadJSON(body);
      if decoded.Err? {
        return BadRequest("invalid request payload: " + decoded.error);
      }
      var updated := ApplyInquiryPatch(existing.value, decoded.value);
      var ok := inquiries.Update(id, updated, dbFails);
      if !ok {
        return ServerError(Some("failed to update inquiry"));
      }
      reply := Reply(StatusOK, MessageBody("Inquiry updated successfully"));
    }

    /** DeleteInquiry: no existence check beforehand; a missing inquiry surfaces as the repository's
        error, which is answered like any other with a 500. */
    method DeleteInquiry(idParam: string, dbFails: bool) returns (reply: Reply)
      requires Valid()
      modifies inquiries
      ensures Valid()
      ensures ParseInt64(Text.TrimSpace(idParam)).None? ==>
        reply == BadRequest("invalid inquiry ID") && inquiries.rows == old(inquiries.rows)
      ensures var id := ParseInt64(Text.TrimSpace(idParam));
        id.Some? && (dbFails || id.value !in old(inquiries.rows)) ==>
          reply == ServerError(Some("failed to delete inquiry")) && inquiries.rows == old(inquiries.rows)
      ensures var id := ParseInt64(Text.TrimSpace(idParam));
        id.Some? && !dbFails && id.value in old(inquiries.rows) ==>
          inquiries.rows == old(inquiries.rows) - {id.value} && reply == Reply(StatusOK, MessageBody("Inquiry deleted successfully"))
    {
      var parsed := ParseInt64(Text.TrimSpace(idParam));
      if parsed.None? {
        return BadRequest("invalid inquiry ID");
      }
      var ok := inquiries.Delete(parsed.value, dbFails);
      if !ok {
        return ServerError(Some("failed to delete inquiry"));
      }
      reply := Reply(StatusOK, MessageBody("Inquiry deleted successfully"));
    }
  }
}
