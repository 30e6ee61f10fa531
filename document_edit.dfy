/** The document editor (src/components/Dashboard/DocumentEdit.js): the collaborator list,
    merged from the user picker without duplicates and edited by position, the attachments
    chosen for upload, the attachments already stored, and the multipart form built on save,
    sent with PUT when a document id is in the route and with POST otherwise. */
module DocumentEdit {
  import opened JsValues
  import opened Lists

  /** `{ user, name, permission }`. */
  datatype Collaborator = Collaborator(user: string, name: string, permission: string)

  /** A user as the picker offers it (`{ _id, name }`). */
  datatype User = User(id: string, name: string)

  const DefaultPermission := "write"

  function UserIds(c: seq<Collaborator>): (r: seq<string>)
    ensures |r| == |c|
    ensures forall i :: 0 <= i < |c| ==> r[i] == c[i].user
  {
    seq(|c|, i requires 0 <= i < |c| => c[i].user)
  }

  /** The picked users not yet collaborators, each as a new collaborator with the default
      permission, in picker order. */
  function NewCollaborators(existing: seq<string>, picked: seq<User>): (r: seq<Collaborator>)
    ensures |r| <= |picked|
    ensures forall i :: 0 <= i < |r| ==> r[i].user !in existing && r[i].permission == DefaultPermission
    ensures forall u :: u in picked && u.id !in existing ==> Collaborator(u.id, u.name, DefaultPermission) in r
    ensures forall i :: 0 <= i < |r| ==> User(r[i].user, r[i].name) in picked
  {
    if picked == [] then []
    else
      var rest := NewCollaborators(existing, picked[1..]);
      assert forall u :: u in picked ==> u == picked[0] || u in picked[1..];
      if picked[0].id in existing then rest
      else [Collaborator(picked[0].id, picked[0].name, DefaultPermission)] + rest
  }

  /** The picker's `onChange`: `[...collaborators, ...newCollaborators]`. Users dropped from
      the picker stay collaborators; the list only grows at its end. */
  function MergeCollaborators(c: seq<Collaborator>, picked: seq<User>): (r: seq<Collaborator>)
    ensures |r| >= |c| && r[..|c|] == c
    ensures forall i :: |c| <= i < |r| ==> r[i].user !in UserIds(c) && r[i].permission == DefaultPermission
    ensures forall u :: u in picked ==> u.id in UserIds(r)
    ensures forall i :: |c| <= i < |r| ==> User(r[i].user, r[i].name) in picked
  {
    var added := NewCollaborators(UserIds(c), picked);
    var r := c + added;
    assert r[..|c|] == c;
    forall u | u in picked ensures u.id in UserIds(r) {
      if u.id !in UserIds(c) {
        var k :| 0 <= k < |added| && added[k] == Collaborator(u.id, u.name, DefaultPermission);
        assert UserIds(r)[|c| + k] == u.id;
      } else {
        var k :| 0 <= k < |c| && UserIds(c)[k] == u.id;
        assert UserIds(r)[k] == u.id;
      }
    }
    r
  }

  /** `filter` and `map` work user by user: the users picked first are added first, so the
      new collaborators follow the picker's order. */
  lemma {:induction false} NewCollaboratorsAppend(existing: seq<string>, p: seq<User>, q: seq<User>)
    ensures NewCollaborators(existing, p + q) == NewCollaborators(existing, p) + NewCollaborators(existing, q)
  {
    if p == [] {
      assert p + q == q;
    } else {
      assert (p + q)[0] == p[0];
      assert (p + q)[1..] == p[1..] + q;
      NewCollaboratorsAppend(existing, p[1..], q);
    }
  }

  /** A single picked user is added, with the default permission, exactly when not yet a
      collaborator. */
  lemma NewCollaboratorsSingle(existing: seq<string>, u: User)
    ensures NewCollaborators(existing, [u]) ==
              if u.id in existing then [] else [Collaborator(u.id, u.name, DefaultPermission)]
  {
    assert [u][1..] == [];
  }

  /** Picking the same users again adds nobody. */
  lemma MergeIdempotent(c: seq<Collaborator>, picked: seq<User>)
    ensures MergeCollaborators(MergeCollaborators(c, picked), picked) == MergeCollaborators(c, picked)
  {
    var r := MergeCollaborators(c, picked);
    NothingNew(UserIds(r), picked);
    assert r + [] == r;
  }

  lemma {:induction false} NothingNew(existing: seq<string>, picked: seq<User>)
    requires forall u :: u in picked ==> u.id in existing
    ensures NewCollaborators(existing, picked) == []
  {
    if picked != [] {
      assert picked[0] in picked;
      assert forall u :: u in picked[1..] ==> u in picked;
      NothingNew(existing, picked[1..]);
    }
  }

  function PickedIds(picked: seq<User>): (r: seq<string>)
    ensures |r| == |picked|
    ensures forall i :: 0 <= i < |picked| ==> r[i] == picked[i].id
  {
    seq(|picked|, i requires 0 <= i < |picked| => picked[i].id)
  }

  /** Merging keeps the user ids duplicate-free when the picker lists each user once. */
  lemma MergeKeepsDistinct(c: seq<Collaborator>, picked: seq<User>)
    requires Distinct(UserIds(c)) && Distinct(PickedIds(picked))
    ensures Distinct(UserIds(MergeCollaborators(c, picked)))
  {
    var added := NewCollaborators(UserIds(c), picked);
    NewDistinct(UserIds(c), picked);
    assert UserIds(c + added) == UserIds(c) + UserIds(added);
    forall x | x in UserIds(added) ensures x !in UserIds(c) {
      var k :| 0 <= k < |added| && UserIds(added)[k] == x;
    }
    DistinctConcat(UserIds(c), UserIds(added));
  }

  lemma DistinctConcat(a: seq<string>, b: seq<string>)
    requires Distinct(a) && Distinct(b)
    requires forall x :: x in b ==> x !in a
    ensures Distinct(a + b)
  {
    forall i, j | 0 <= i < j < |a + b| ensures (a + b)[i] != (a + b)[j] {
      if i < |a| && j >= |a| {
        assert (a + b)[j] == b[j - |a|];
        assert b[j - |a|] in b;
      }
    }
  }

  /** Every id added is the id of a picked user. */
  lemma NewIdsPicked(existing: seq<string>, picked: seq<User>)
    ensures forall x :: x in UserIds(NewCollaborators(existing, picked)) ==> x in PickedIds(picked)
  {
    var r := NewCollaborators(existing, picked);
    forall x | x in UserIds(r) ensures x in PickedIds(picked) {
      var k :| 0 <= k < |r| && UserIds(r)[k] == x;
      assert User(r[k].user, r[k].name) in picked;
      var j :| 0 <= j < |picked| && picked[j] == User(r[k].user, r[k].name);
      assert PickedIds(picked)[j] == x;
    }
  }

  lemma {:induction false} NewDistinct(existing: seq<string>, picked: seq<User>)
    requires Distinct(PickedIds(picked))
    ensures Distinct(UserIds(NewCollaborators(existing, picked)))
    ensures forall x :: x in UserIds(NewCollaborators(existing, picked)) ==> x in PickedIds(picked)
  {
    NewIdsPicked(existing, picked);
    if picked != [] {
      var tail := picked[1..];
      assert PickedIds(tail) == PickedIds(picked)[1..];
      NewDistinct(existing, tail);
      var rest := NewCollaborators(existing, tail);
      assert picked[0].id !in PickedIds(tail);
      if picked[0].id !in existing {
        var first := [Collaborator(picked[0].id, picked[0].name, DefaultPermission)];
        assert UserIds(first + rest) == [picked[0].id] + UserIds(rest);
        DistinctConcat([picked[0].id], UserIds(rest));
      }
    }
  }

  /** `handleCollaboratorPermissionChange`: the collaborator at `index` gets the permission.
      The source writes an out-of-range index through `undefined` and throws. */
  function ChangePermission(c: seq<Collaborator>, index: nat, permission: string): (r: seq<Collaborator>)
    requires index < |c|
    ensures |r| == |c| && r[index].permission == permission
    ensures r[index].user == c[index].user && r[index].name == c[index].name
    ensures forall j :: 0 <= j < |c| && j != index ==> r[j] == c[j]
  {
    c[index := c[index].(permission := permission)]
  }

  /** Changing a permission keeps who the collaborators are. */
  lemma PermissionKeepsUsers(c: seq<Collaborator>, index: nat, permission: string)
    requires index < |c|
    ensures UserIds(ChangePermission(c, index, permission)) == UserIds(c)
  {
  }

  /** `handleRemoveCollaborator`. */
  function RemoveCollaborator(c: seq<Collaborator>, index: nat): (r: seq<Collaborator>)
    ensures index < |c| ==> r == c[..index] + c[index + 1..]
    ensures index >= |c| ==> r == c
  {
    RemoveAt(c, index)
  }

  /** A file chosen for upload. */
  datatype File = File(name: string, size: nat)

  /** `handleFileChange`: `[...attachments, ...e.target.files]`. */
  function AddFiles(attachments: seq<File>, files: seq<File>): (r: seq<File>)
    ensures |r| == |attachments| + |files|
    ensures r[..|attachments|] == attachments && r[|attachments|..] == files
  {
    attachments + files
  }

  /** `handleRemoveAttachment`. */
  function RemoveAttachment(attachments: seq<File>, index: nat): (r: seq<File>)
    ensures index < |attachments| ==> r == attachments[..index] + attachments[index + 1..]
    ensures index >= |attachments| ==> r == attachments
  {
    RemoveAt(attachments, index)
  }

  /** Choosing files and then removing the first of them restores the list with the rest. */
  lemma AddThenRemoveFile(attachments: seq<File>, files: seq<File>)
    requires files != []
    ensures RemoveAttachment(AddFiles(attachments, files), |attachments|) == attachments + files[1..]
  {
    var r := attachments + files;
    assert r[..|attachments|] == attachments;
    assert r[|attachments| + 1..] == files[1..];
  }

  /** An attachment already stored with the document, addressed by its storage key. */
  datatype StoredAttachment = StoredAttachment(key: string, filename: string)

  function AttachmentKey(a: StoredAttachment): string {
    a.key
  }

  /** `handleRemoveExistingAttachment`: the attachments with that key go only once the user
      confirmed and the DELETE succeeded. */
  function RemoveExistingAttachment(existing: seq<StoredAttachment>, attachment: StoredAttachment,
                                    confirmed: bool, deleted: bool): (r: seq<StoredAttachment>)
    ensures !(confirmed && deleted) ==> r == existing
    ensures confirmed && deleted ==> forall a :: a in r <==> a in existing && a.key != attachment.key
    ensures |r| <= |existing|
  {
    if confirmed && deleted then Without(existing, AttachmentKey, attachment.key) else existing
  }

  /** The multipart field names `handleSave` uses. */
  datatype FieldName = TitleField | ContentField | CollaboratorUser(idx: nat) | CollaboratorPermission(idx: nat) | AttachmentsField

  datatype FieldValue = Text(text: string) | Upload(file: File)

  datatype FormEntry = FormEntry(name: FieldName, value: FieldValue)

  /** The pair of fields for collaborator `i`. */
  function CollaboratorEntries(c: Collaborator, i: nat): seq<FormEntry> {
    [FormEntry(CollaboratorUser(i), Text(c.user)), FormEntry(CollaboratorPermission(i), Text(c.permission))]
  }

  /** The collaborator fields of the form, in collaborator order. */
  function CollaboratorFields(c: seq<Collaborator>): seq<FormEntry> {
    if c == [] then [] else CollaboratorFields(c[..|c| - 1]) + CollaboratorEntries(c[|c| - 1], |c| - 1)
  }

  function AttachmentFields(a: seq<File>): seq<FormEntry> {
    if a == [] then [] else AttachmentFields(a[..|a| - 1]) + [FormEntry(AttachmentsField, Upload(a[|a| - 1]))]
  }

  /** Every field of the form, in the order they are appended. */
  function FormEntries(title: string, content: string, c: seq<Collaborator>, a: seq<File>): seq<FormEntry> {
    [FormEntry(TitleField, Text(title)), FormEntry(ContentField, Text(content))] + CollaboratorFields(c) + AttachmentFields(a)
  }

  lemma {:induction false} CollaboratorFieldsAt(c: seq<Collaborator>, i: nat)
    requires i < |c|
    ensures |CollaboratorFields(c)| == 2 * |c|
    ensures CollaboratorFields(c)[2 * i] == FormEntry(CollaboratorUser(i), Text(c[i].user))
    ensures CollaboratorFields(c)[2 * i + 1] == FormEntry(CollaboratorPermission(i), Text(c[i].permission))
  {
    var p := c[..|c| - 1];
    if i < |c| - 1 {
      CollaboratorFieldsAt(p, i);
    } else if p != [] {
      CollaboratorFieldsAt(p, 0);
    }
  }

  lemma {:induction false} AttachmentFieldsAt(a: seq<File>, j: nat)
    requires j < |a|
    ensures |AttachmentFields(a)| == |a|
    ensures AttachmentFields(a)[j] == FormEntry(AttachmentsField, Upload(a[j]))
  {
    var p := a[..|a| - 1];
    if j < |a| - 1 {
      AttachmentFieldsAt(p, j);
    } else if p != [] {
      AttachmentFieldsAt(p, 0);
    }
  }

  /** The serialisation order: title, content, then `collaborators[i][user]` and
      `collaborators[i][permission]` for each collaborator in order, then one `attachments`
      field per file in order. */
  lemma FormLayout(title: string, content: string, c: seq<Collaborator>, a: seq<File>)
    ensures var f := FormEntries(title, content, c, a);
            && |f| == 2 + 2 * |c| + |a|
            && f[0] == FormEntry(TitleField, Text(title))
            && f[1] == FormEntry(ContentField, Text(content))
            && (forall i :: 0 <= i < |c| ==>
                  f[2 + 2 * i] == FormEntry(CollaboratorUser(i), Text(c[i].user))
                  && f[3 + 2 * i] == FormEntry(CollaboratorPermission(i), Text(c[i].permission)))
            && (forall j :: 0 <= j < |a| ==> f[2 + 2 * |c| + j] == FormEntry(AttachmentsField, Upload(a[j])))
  {
    var head := [FormEntry(TitleField, Text(title)), FormEntry(ContentField, Text(content))];
    var cf := CollaboratorFields(c);
    var af := AttachmentFields(a);
    if c != [] {
      CollaboratorFieldsAt(c, 0);
    }
    if a != [] {
      AttachmentFieldsAt(a, 0);
    }
    assert |cf| == 2 * |c| && |af| == |a|;
    forall i | 0 <= i < |c|
      ensures FormEntries(title, content, c, a)[2 + 2 * i] == FormEntry(CollaboratorUser(i), Text(c[i].user))
      ensures FormEntries(title, content, c, a)[3 + 2 * i] == FormEntry(CollaboratorPermission(i), Text(c[i].permission))
    {
      CollaboratorFieldsAt(c, i);
    }
    forall j | 0 <= j < |a|
      ensures FormEntries(title, content, c, a)[2 + 2 * |c| + j] == FormEntry(AttachmentsField, Upload(a[j]))
    {
      AttachmentFieldsAt(a, j);
    }
  }

  lemma CollaboratorFieldsSnoc(c: seq<Collaborator>, i: nat)
    requires i < |c|
    ensures CollaboratorFields(c[..i + 1]) == CollaboratorFields(c[..i]) + CollaboratorEntries(c[i], i)
  {
    assert c[..i + 1][..i] == c[..i];
  }

  lemma AttachmentFieldsSnoc(a: seq<File>, j: nat)
    requires j < |a|
    ensures AttachmentFields(a[..j + 1]) == AttachmentFields(a[..j]) + [FormEntry(AttachmentsField, Upload(a[j]))]
  {
    assert a[..j + 1][..j] == a[..j];
  }

  /** The `FormData` built by `handleSave`: two appends, then one `forEach` over the
      collaborators and one over the new attachments. */
  method BuildFormData(title: string, content: string, c: seq<Collaborator>, a: seq<File>)
    returns (form: seq<FormEntry>)
    ensures form == FormEntries(title, content, c, a)
  {
    var head := [FormEntry(TitleField, Text(title)), FormEntry(ContentField, Text(content))];
    form := head;
    var i := 0;
    assert c[..0] == [];
    while i < |c|
      invariant 0 <= i <= |c|
      invariant form == head + CollaboratorFields(c[..i])
    {
      CollaboratorFieldsSnoc(c, i);
      form := form + [FormEntry(CollaboratorUser(i), Text(c[i].user))];
      form := form + [FormEntry(CollaboratorPermission(i), Text(c[i].permission))];
      i := i + 1;
    }
    assert c[..i] == c;
    var j := 0;
    assert a[..0] == [];
    while j < |a|
      invariant 0 <= j <= |a|
      invariant form == head + CollaboratorFields(c) + AttachmentFields(a[..j])
    {
      AttachmentFieldsSnoc(a, j);
      form := form + [FormEntry(AttachmentsField, Upload(a[j]))];
      j := j + 1;
    }
    assert a[..j] == a;
  }

  /** The request `handleSave` sends. */
  datatype SaveRequest = Put(path: string) | Post(path: string)

  /** `isEditing = Boolean(id)`: an id in the route means the document exists. */
  function SaveRequestFor(id: string): (r: SaveRequest)
    ensures r.Put? <==> id != ""
    ensures r.Put? ==> r.path == "/documents/" + id
    ensures r.Post? ==> r.path == "/documents"
  {
    if id != "" then Put("/documents/" + id) else Post("/documents")
  }

  const UpdatedMessage := "Document updated successfully"
  const CreatedMessage := "Document created successfully"
  const SaveFailedMessage := "Failed to save document"

  /** The notification after a save, and whether the editor navigates back to the list. */
  datatype SaveResult = SaveResult(message: string, navigateToList: bool)

  function SaveOutcome(id: string, ok: bool): (r: SaveResult)
    ensures r.navigateToList <==> ok
    ensures ok && id != "" ==> r.message == UpdatedMessage
    ensures ok && id == "" ==> r.message == CreatedMessage
    ensures !ok ==> r.message == SaveFailedMessage
  {
    if !ok then SaveResult(SaveFailedMessage, false)
    else if SaveRequestFor(id).Put? then SaveResult(UpdatedMessage, true)
    else SaveResult(CreatedMessage, true)
  }
}
