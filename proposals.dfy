/**
 * ProposalController: contact proposals with an optional attachment on the
 * public disk under `proposals/files/`, a four-value status that starts at
 * `новый`, attachment download, and deletion.
 */
module Proposals {
  import opened Support
  import opened Schema

  const AttachmentDir: string := "proposals/files/"

  function StatusName(s: ProposalStatus): string {
    match s
    case New => "новый"
    case InProgress => "в работе"
    case Rejected => "отклонено"
    case Accepted => "принято"
  }

  /** The rule `in:новый,в работе,отклонено,принято`. */
  function ParseStatus(s: string): (r: Option<ProposalStatus>)
    ensures r.Some? <==> s in {"новый", "в работе", "отклонено", "принято"}
    ensures r.Some? ==> StatusName(r.value) == s
  {
    if s == "новый" then Some(New)
    else if s == "в работе" then Some(InProgress)
    else if s == "отклонено" then Some(Rejected)
    else if s == "принято" then Some(Accepted)
    else None
  }

  lemma StatusRoundTrip(s: ProposalStatus)
    ensures ParseStatus(StatusName(s)) == Some(s)
  {
  }

  /** The request fields `store` reads. */
  datatype ProposalInput = ProposalInput(
    name: Option<string>, email: Option<string>, subject: Option<string>, message: Option<string>,
    attachment: Option<Upload>, privacyAgreement: Option<string>)

  predicate ShortText(v: Option<string>) {
    v.Some? && Required(v.value) && |v.value| <= 255
  }

  /** The rule set of `store`. */
  predicate Accepts(input: ProposalInput) {
    && ShortText(input.name)
    && ShortText(input.email)
    && ShortText(input.subject)
    && input.message.Some? && Required(input.message.value)
    && (input.attachment.Some? ==> input.attachment.value.acceptable)
    && input.privacyAgreement.Some? && AcceptedValue(input.privacyAgreement.value)
  }

  /** `$request->file('attachment')->store('proposals/files', 'public')`. */
  function AttachmentPath(hashName: string): string {
    AttachmentDir + hashName
  }

  /**
   * The row `store` creates: the submitted fields, status `новый`, the
   * attachment's path only when one was uploaded, and the accepted privacy
   * value, which the `boolean` cast reads as true.
   */
  function NewProposal(input: ProposalInput): (p: Proposal)
    requires Accepts(input)
    ensures p.name == input.name.value && p.email == input.email.value
    ensures p.subject == input.subject.value && p.message == input.message.value
    ensures p.status == New
    ensures p.fileSrc.Some? <==> input.attachment.Some?
    ensures input.attachment.Some? ==> p.fileSrc == Some(AttachmentPath(input.attachment.value.hashName))
    ensures p.privacyAgreement
  {
    AcceptedIsTrue(input.privacyAgreement.value);
    Proposal(input.name.value, input.email.value, input.subject.value, input.message.value,
      if input.attachment.Some? then Some(AttachmentPath(input.attachment.value.hashName)) else None,
      New, Truthy(input.privacyAgreement.value))
  }

  /**
   * `store`: a rule violation is a 422, then an address `validEmail`
   * rejects a 422 on `email`, neither changing anything; an accepted request
   * stores the attachment, if any, and creates exactly one proposal.
   */
  method Store(db: Database, disk: Disk, input: ProposalInput, validEmail: string -> bool) returns (r: Result<Id>)
    requires db.Valid()
    modifies db`proposals, disk
    ensures db.Valid()
    ensures !Accepts(input) ==> r == Err(ValidationFailed)
    ensures Accepts(input) && !validEmail(input.email.value) ==> r == Err(Invalid("email"))
    ensures r.Err? ==> db.proposals == old(db.proposals) && disk.files == old(disk.files)
    ensures r.Ok? <==> Accepts(input) && validEmail(input.email.value)
    ensures r.Ok? ==>
      && r.value == old(db.proposals.next)
      && db.proposals == old(db.proposals).Insert(NewProposal(input)).0
      && disk.files == old(disk.files)
           + (if input.attachment.Some? then {AttachmentPath(input.attachment.value.hashName)} else {})
  {
    if !Accepts(input) {
      return Err(ValidationFailed);
    }
    if !validEmail(input.email.value) {
      return Err(Invalid("email"));
    }
    var stored := if input.attachment.Some? then {AttachmentPath(input.attachment.value.hashName)} else {};
    var id := Create(db, disk, NewProposal(input), stored);
    r := Ok(id);
  }

  /** The accepted path of `store`: insert the row and record the stored attachment, if any. */
  method Create(db: Database, disk: Disk, row: Proposal, stored: set<string>) returns (id: Id)
    requires db.Valid()
    modifies db`proposals, disk
    ensures db.Valid()
    ensures id == old(db.proposals.next)
    ensures db.proposals == old(db.proposals).Insert(row).0
    ensures disk.files == old(disk.files) + stored
  {
    var ins := db.proposals.Insert(row);
    db.SetProposals(ins.0);
    disk.files := disk.files + stored;
    id := ins.1;
  }

  /**
   * The validation of `updateStatus`: `required|in:новый,в работе,отклонено,принято`.
   * The four names are non-blank, so `in` subsumes `required` on a present value.
   */
  function StatusInput(status: Option<string>): (r: Option<ProposalStatus>)
    ensures r.Some? <==> status.Some? && status.value in {"новый", "в работе", "отклонено", "принято"}
    ensures r.Some? ==> StatusName(r.value) == status.value
  {
    if status.Some? then ParseStatus(status.value) else None
  }

  /**
   * `updateStatus`: an unknown id is a 404 and a value outside the four
   * statuses a 422, neither changing anything; otherwise only the status
   * changes, from whichever status the proposal had.
   */
  method UpdateStatus(db: Database, id: Id, status: Option<string>) returns (r: Result<Proposal>)
    requires db.Valid()
    modifies db`proposals
    ensures db.Valid()
    ensures id !in old(db.proposals.rows) ==> r == Err(NotFound(NoQueryResults))
    ensures id in old(db.proposals.rows) && StatusInput(status).None? ==> r == Err(ValidationFailed)
    ensures r.Err? ==> db.proposals == old(db.proposals)
    ensures r.Ok? <==> id in old(db.proposals.rows) && StatusInput(status).Some?
    ensures r.Ok? ==>
      && r.value == old(db.proposals.rows[id]).(status := StatusInput(status).value)
      && db.proposals == old(db.proposals).Put(id, r.value)
  {
    if id !in db.proposals.rows {
      return Err(NotFound(NoQueryResults));
    }
    var parsed := StatusInput(status);
    if parsed.None? {
      return Err(ValidationFailed);
    }
    var row := db.proposals.rows[id].(status := parsed.value);
    db.SetProposals(db.proposals.Put(id, row));
    r := Ok(row);
  }

  /**
   * `downloadFile`: an unknown id is a 404, then an empty `file_src` (null,
   * "" or "0") is a 404 "No file attached", then a path the disk lacks is a
   * 404 "File not found"; otherwise the stored path, downloaded under its
   * basename.
   */
  function Download(proposals: map<Id, Proposal>, files: set<string>, id: Id): (r: Result<(string, string)>)
    ensures id !in proposals ==> r == Err(NotFound(NoQueryResults))
    ensures id in proposals && Empty(proposals[id].fileSrc) ==> r == Err(NotFound("No file attached"))
    ensures id in proposals && !Empty(proposals[id].fileSrc) && proposals[id].fileSrc.value !in files ==>
      r == Err(NotFound("File not found"))
    ensures r.Ok? <==> id in proposals && !Empty(proposals[id].fileSrc) && proposals[id].fileSrc.value in files
    ensures r.Ok? ==> r.value.0 == proposals[id].fileSrc.value && r.value.1 == Basename(r.value.0)
  {
    if id !in proposals then Err(NotFound(NoQueryResults))
    else if Empty(proposals[id].fileSrc) then Err(NotFound("No file attached"))
    else
      var path := proposals[id].fileSrc.value;
      if path !in files then Err(NotFound("File not found"))
      else Ok((path, Basename(path)))
  }

  /**
   * An attachment that `store` saved downloads from its stored path under
   * the stored file name; `NewProposal` gives every row with an attachment
   * exactly such a `file_src`.
   */
  lemma StoredAttachmentDownloads(proposals: Table<Proposal>, files: set<string>, row: Proposal, h: string)
    requires h != [] && '/' !in h && row.fileSrc == Some(AttachmentPath(h))
    ensures var ins := proposals.Insert(row);
      Download(ins.0.rows, files + {AttachmentPath(h)}, ins.1) == Ok((AttachmentPath(h), h))
  {
    BasenameOfFile(AttachmentDir, h);
    assert !Empty(row.fileSrc) by {
      assert |AttachmentPath(h)| > 1;
    }
  }

  /** `destroy`: an unknown id is a 404; otherwise exactly that proposal is removed (its file stays on disk). */
  method Destroy(db: Database, id: Id) returns (r: Result<()>)
    requires db.Valid()
    modifies db`proposals
    ensures db.Valid()
    ensures r.Ok? <==> id in old(db.proposals.rows)
    ensures r.Err? ==> r.error == NotFound(NoQueryResults) && db.proposals == old(db.proposals)
    ensures r.Ok? ==> db.proposals == old(db.proposals).(rows := old(db.proposals.rows) - {id})
  {
    if id !in db.proposals.rows {
      return Err(NotFound(NoQueryResults));
    }
    db.SetProposals(db.proposals.(rows := db.proposals.rows - {id}));
    r := Ok(());
  }
}
