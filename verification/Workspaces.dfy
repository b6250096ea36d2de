/** The workspace: a state machine over open, edit and close.

    The reactive engine is a pair of maps, the pending command and the committed revision of each
    open document, and a command either updates both completely or not at all.  A URI is
    its rank in the order of URI strings. */
module Workspaces {
  import opened Wrappers
  import opened SourceText
  import opened SourceOrder
  import opened SourceEdits
  import opened SourceMap
  import opened SourceRuns

  datatype Uri = Uri(rank: nat)

  datatype Delta = Load(newLen: nat) | Edits(splices: seq<Splice>)

  /** `SourceRevision`: `document` and `id` identify it. */
  datatype Revision = Revision(document: nat, id: nat, previous: Option<nat>, text: Text, delta: Delta,
                               islands: seq<Island>)

  /** `SourceCommand` */
  datatype Command = Command(id: nat, freshId: Option<nat>, base: Option<(nat, nat)>, delta: Delta, nextText: Text)

  type Revisions = map<Uri, Revision>

  function Current(revisions: Revisions, uri: Uri): Option<Revision> {
    if uri in revisions then Some(revisions[uri]) else None
  }

  function BaseOf(previous: Option<Revision>): Option<(nat, nat)> {
    if previous.Some? then Some((previous.value.document, previous.value.id)) else None
  }

  function TextOf(previous: Option<Revision>): Text {
    if previous.Some? then previous.value.text else ""
  }

  /** The delta of a command leads from the previous text to its next text. */
  predicate Leads(previous: Option<Revision>, command: Command) {
    command.delta.Edits? ==>
      Normalized(command.delta.splices, 0, 0, |TextOf(previous)|, |command.nextText|)
  }

  // ------------------------------------------------------------------ source_document

  /** The revision a command produces. */
  function NextRevision(hash: Uri -> nat, uri: Uri, previous: Option<Revision>, command: Command): Revision {
    Revision(
      if previous.Some? then previous.value.document
      else if command.freshId.Some? then command.freshId.value
      else hash(uri),
      if previous.Some? then previous.value.id + 1 else 1,
      if previous.Some? then Some(previous.value.id) else None,
      command.nextText,
      command.delta,
      if command.delta.Load? then []
      else Islands(command.delta.splices, 0, 0, |TextOf(previous)|))
  }

  /** The revision continues the previous one by the command: the next id, the id before, the text and
      delta of the command, and a map of exactly the old positions outside its splices. */
  ghost predicate Continues(previous: Option<Revision>, command: Command, next: Revision) {
    && next.id == (if previous.Some? then previous.value.id + 1 else 1)
    && next.previous == (if previous.Some? then Some(previous.value.id) else None)
    && (previous.Some? ==> next.document == previous.value.document)
    && next.text == command.nextText && next.delta == command.delta
    && forall at: nat :: MapOldToNew(next.islands, at).Some? <==>
         command.delta.Edits? && at < |TextOf(previous)| && !InOld(command.delta.splices, at)
  }

  lemma NextContinues(hash: Uri -> nat, uri: Uri, previous: Option<Revision>, command: Command)
    requires Leads(previous, command)
    ensures Continues(previous, command, NextRevision(hash, uri, previous, command))
  {
    if command.delta.Edits? {
      var splices, oldLen, newLen := command.delta.splices, |TextOf(previous)|, |command.nextText|;
      forall at: nat
        ensures MapOldToNew(Islands(splices, 0, 0, oldLen), at).Some? <==> at < oldLen && !InOld(splices, at)
      {
        MapIsMoved(splices, 0, 0, oldLen, newLen, at);
        MovedDefined(splices, 0, 0, oldLen, newLen, at);
      }
    }
  }

  /** `source_document`: `Err` for a stale base. */
  method SourceDocument(hash: Uri -> nat, uri: Uri, previous: Option<Revision>, command: Option<Command>)
    returns (r: Result<Option<Revision>, Uri>)
    requires command.Some? ==> Leads(previous, command.value)
    ensures command.None? ==> r == Ok(None)
    ensures command.Some? && command.value.base != BaseOf(previous) ==> r == Err(uri)
    ensures command.Some? && command.value.base == BaseOf(previous)
      ==> && r == Ok(Some(NextRevision(hash, uri, previous, command.value)))
          && Continues(previous, command.value, r.value.value)
  {
    if command.None? { return Ok(None); }
    var c := command.value;
    if c.base != BaseOf(previous) { return Err(uri); }
    NextContinues(hash, uri, previous, c);
    var document := if previous.Some? then previous.value.document
                    else if c.freshId.Some? then c.freshId.value
                    else hash(uri);
    var id := if previous.Some? then previous.value.id + 1 else 1;
    var islands: seq<Island> := [];
    if c.delta.Edits? {
      islands := Build(|TextOf(previous)|, |c.nextText|, c.delta.splices);
    }
    return Ok(Some(Revision(document, id, if previous.Some? then Some(previous.value.id) else None,
      c.nextText, c.delta, islands)));
  }

  // ------------------------------------------------------------------ one engine command

  type Writes = map<Uri, Option<Command>>

  ghost predicate CanCommit(revisions: Revisions, writes: Writes) {
    forall u :: u in writes && writes[u].Some? ==> writes[u].value.base == BaseOf(Current(revisions, u))
  }

  /** Every written document is folded from its committed revision; the others keep theirs. */
  ghost predicate Folded(hash: Uri -> nat, before: Revisions, writes: Writes, now: Revisions) {
    forall u: Uri :: Current(now, u) ==
      if u !in writes then Current(before, u)
      else if writes[u].None? then None
      else Some(NextRevision(hash, u, Current(before, u), writes[u].value))
  }

  ghost predicate Stored(before: map<Uri, Command>, writes: Writes, now: map<Uri, Command>) {
    forall u: Uri :: (u in now <==> if u in writes then writes[u].Some? else u in before)
      && (u in now ==> now[u] == if u in writes then writes[u].value else before[u])
  }

  // ------------------------------------------------------------------ batches over documents

  /** The edits of one document, in caller order. */
  function EditsFor(edits: seq<(Uri, Edit)>, uri: Uri): seq<Edit> {
    if edits == [] then []
    else
      var front := EditsFor(edits[..|edits| - 1], uri);
      if edits[|edits| - 1].0 == uri then front + [edits[|edits| - 1].1] else front
  }

  ghost predicate Mentions(edits: seq<(Uri, Edit)>, uri: Uri) {
    EditsFor(edits, uri) != []
  }

  ghost predicate Takes(revision: Option<Revision>, edits: seq<Edit>) {
    revision.Some? && AllEditsInBounds(edits, |revision.value.text|) && !Overlapping(edits)
  }

  ghost predicate AcceptedFor(texts: map<Uri, Text>, edits: seq<(Uri, Edit)>, uri: Uri) {
    && uri in texts && AllEditsInBounds(EditsFor(edits, uri), |texts[uri]|)
    && !Overlapping(EditsFor(edits, uri))
  }

  /** Every mentioned document is open and accepts its part. */
  ghost predicate BatchAccepted(texts: map<Uri, Text>, edits: seq<(Uri, Edit)>) {
    forall u: Uri :: Mentions(edits, u) ==> AcceptedFor(texts, edits, u)
  }

  /** The plain model: every open text edited as read naively. */
  function EditedTexts(texts: map<Uri, Text>, edits: seq<(Uri, Edit)>): map<Uri, Text> {
    map u | u in texts :: Naive(texts[u], EditsFor(edits, u))
  }

  /** Keys of the grouping in increasing order. */
  function InsertKey(keys: seq<Uri>, uri: Uri): seq<Uri> {
    if keys == [] then [uri]
    else if uri == keys[0] then keys
    else if uri.rank < keys[0].rank then [uri] + keys
    else [keys[0]] + InsertKey(keys[1..], uri)
  }

  ghost predicate Increasing(keys: seq<Uri>) {
    forall i, j :: 0 <= i < j < |keys| ==> keys[i].rank < keys[j].rank
  }

  lemma {:induction false} InsertKeyHolds(keys: seq<Uri>, uri: Uri)
    requires Increasing(keys)
    ensures Increasing(InsertKey(keys, uri))
    ensures forall u :: u in InsertKey(keys, uri) <==> u in keys || u == uri
  {
    if keys != [] {
      assert keys == [keys[0]] + keys[1..];
      InsertKeyHolds(keys[1..], uri);
      if uri.rank > keys[0].rank {
        assert forall u :: u in InsertKey(keys[1..], uri) ==> keys[0].rank < u.rank;
      }
    }
  }

  /** The grouping loop of `edit`. */
  method GroupByUri(edits: seq<(Uri, Edit)>) returns (keys: seq<Uri>, groups: map<Uri, seq<Edit>>)
    ensures Increasing(keys)
    ensures forall u: Uri :: u in keys <==> u in groups
    ensures forall u: Uri :: u in groups <==> Mentions(edits, u)
    ensures forall u :: u in groups ==> groups[u] == EditsFor(edits, u)
  {
    keys, groups := [], map[];
    for i := 0 to |edits|
      invariant Increasing(keys)
      invariant forall u: Uri :: u in keys <==> u in groups
      invariant forall u: Uri :: u in groups <==> Mentions(edits[..i], u)
      invariant forall u :: u in groups ==> groups[u] == EditsFor(edits[..i], u)
    {
      var uri, edit := edits[i].0, edits[i].1;
      assert edits[..i + 1][..i] == edits[..i];
      InsertKeyHolds(keys, uri);
      keys := InsertKey(keys, uri);
      groups := groups[uri := (if uri in groups then groups[uri] else []) + [edit]];
    }
    assert edits[..|edits|] == edits;
  }

  /** One document's part of an accepted batch. */
  ghost predicate WriteOk(before: Revision, edits: seq<Edit>, command: Command) {
    && command.base == BaseOf(Some(before)) && command.freshId == None
    && Leads(Some(before), command)
    && command.nextText == Naive(before.text, edits)
    && HoldsSplices(command.delta, Normal(before.text, edits))
    && CarriesOver(Islands(command.delta.splices, 0, 0, |before.text|), Normal(before.text, edits), before.text,
                   command.nextText)
  }

  /** The delta is the splices of these replacements. */
  ghost predicate HoldsSplices(delta: Delta, repls: seq<Repl>) {
    delta.Edits? && Describes(delta.splices, Pieces(repls), repls)
  }

  /** What the loop over documents has prepared for `u` once it has visited `done`. */
  ghost predicate PreparedAt(revisions: Revisions, groups: map<Uri, seq<Edit>>, done: seq<Uri>, writes: Writes,
                             u: Uri) {
    if u in done then
      && u in groups && u in revisions
      && AllEditsInBounds(groups[u], |revisions[u].text|) && !Overlapping(groups[u])
      && (u in writes <==> Normal(revisions[u].text, groups[u]) != [])
      && (u in writes ==> writes[u].Some? && WriteOk(revisions[u], groups[u], writes[u].value))
    else u !in writes
  }

  ghost predicate Prepared(revisions: Revisions, groups: map<Uri, seq<Edit>>, done: seq<Uri>, writes: Writes) {
    forall u: Uri :: PreparedAt(revisions, groups, done, writes, u)
  }

  function TextIn(revision: Option<Revision>): Option<Text> {
    if revision.Some? then Some(revision.value.text) else None
  }

  /** Normalizes and applies one document's edits: `Ok(None)` when no splice is left. */
  method PrepareDocument(revision: Option<Revision>, edits: seq<Edit>, id: nat)
    returns (r: Result<Option<Command>, EditError>)
    requires edits != []
    ensures r.Ok? <==> Takes(revision, edits)
    ensures r.Err? ==> Blames(r.error, TextIn(revision), edits)
    ensures r.Ok? ==> (r.value.Some? <==> Normal(revision.value.text, edits) != [])
    ensures r.Ok? && r.value.Some? ==> WriteOk(revision.value, edits, r.value.value)
    ensures r.Ok? && r.value.None? ==> Naive(revision.value.text, edits) == revision.value.text
  {
    var normal := NormalizeEdits(TextIn(revision), edits);
    if normal.Err? { return Err(normal.error); }
    var batch, base := normal.value, revision.value.text;
    ghost var repls := Normal(base, edits);
    if batch.splices == [] {
      assert Replaced(base, [], 0) == base;
      return Ok(None);
    }
    var text := ApplySplices(base, batch.splices, batch.inserted, repls);
    Regular(base, batch.splices, batch.inserted, repls);
    MapCarriesOver(base, batch.splices, batch.inserted, repls);
    DescribedPieces(batch.splices, batch.inserted, repls);
    return Ok(Some(Command(id, None, Some((revision.value.document, revision.value.id)), Edits(batch.splices), text)));
  }

  /** The loop over documents stops at the first one that does not take its edits, with its error. */
  ghost predicate StopsAt(revisions: Revisions, keys: seq<Uri>, groups: map<Uri, seq<Edit>>, k: int, error: EditError)
    requires forall u :: u in keys ==> u in groups
  {
    && 0 <= k < |keys| && !Takes(Current(revisions, keys[k]), groups[keys[k]])
    && Blames(error, TextIn(Current(revisions, keys[k])), groups[keys[k]])
    && forall j :: 0 <= j < k ==> Takes(Current(revisions, keys[j]), groups[keys[j]])
  }

  function TextAt(texts: map<Uri, Text>, uri: Uri): Option<Text> {
    if uri in texts then Some(texts[uri]) else None
  }

  /** The mentioned document that refuses its part and comes first. */
  ghost predicate FirstRefusal(texts: map<Uri, Text>, edits: seq<(Uri, Edit)>, uri: Uri) {
    && Mentions(edits, uri) && !AcceptedFor(texts, edits, uri)
    && forall u: Uri :: Mentions(edits, u) && u.rank < uri.rank ==> AcceptedFor(texts, edits, u)
  }

  /** The error is that of the first document that refuses its part. */
  ghost predicate Refused(texts: map<Uri, Text>, edits: seq<(Uri, Edit)>, error: EditError) {
    exists u: Uri :: FirstRefusal(texts, edits, u) && Blames(error, TextAt(texts, u), EditsFor(edits, u))
  }

  function Extended(writes: Writes, uri: Uri, prepared: Option<Command>): Writes {
    if prepared.Some? then writes[uri := prepared] else writes
  }

  /** Preparing one more document. */
  lemma PreparedStep(revisions: Revisions, groups: map<Uri, seq<Edit>>, keys: seq<Uri>, k: nat, writes: Writes,
                     prepared: Option<Command>)
    requires k < |keys| && Increasing(keys) && Prepared(revisions, groups, keys[..k], writes)
    requires keys[k] in groups && keys[k] in revisions
    requires AllEditsInBounds(groups[keys[k]], |revisions[keys[k]].text|) && !Overlapping(groups[keys[k]])
    requires prepared.Some? <==> Normal(revisions[keys[k]].text, groups[keys[k]]) != []
    requires prepared.Some? ==> WriteOk(revisions[keys[k]], groups[keys[k]], prepared.value)
    ensures Prepared(revisions, groups, keys[..k + 1], Extended(writes, keys[k], prepared))
  {
    var next := Extended(writes, keys[k], prepared);
    var done := keys[..k + 1];
    assert done == keys[..k] + [keys[k]];
    forall u: Uri ensures PreparedAt(revisions, groups, done, next, u) {
      assert PreparedAt(revisions, groups, keys[..k], writes, u);
      assert u == keys[k] ==> u !in keys[..k];
    }
  }

  lemma Unedited(base: Text, edits: seq<Edit>)
    requires edits == [] || (AllEditsInBounds(edits, |base|) && !Overlapping(edits) && Normal(base, edits) == [])
    ensures Naive(base, edits) == base
  {
    assert base[0..] == base;
    if edits == [] {
      NaiveNothing(base, 0);
    } else {
      NormalIsNaive(base, edits);
    }
  }

  /** What one document looks like after an accepted batch with the given edits for it. */
  ghost predicate DocumentDone(before: Option<Revision>, now: Option<Revision>, edits: seq<Edit>) {
    && (before.Some? <==> now.Some?)
    && (before.Some? ==>
          && now.value.text == Naive(before.value.text, edits)
          && if edits != [] && Normal(before.value.text, edits) != []
             then now.value.id == before.value.id + 1
               && now.value.document == before.value.document
               && now.value.previous == Some(before.value.id)
               && HoldsSplices(now.value.delta, Normal(before.value.text, edits))
               && CarriesOver(now.value.islands, Normal(before.value.text, edits), before.value.text, now.value.text)
             else now == before)
  }

  ghost predicate BatchDone(before: Revisions, now: Revisions, edits: seq<(Uri, Edit)>) {
    forall u: Uri :: DocumentDone(Current(before, u), Current(now, u), EditsFor(edits, u))
  }

  /** An accepted part of a batch gives its document a new revision with the old text iff its
      grouped replacements cancel out and some of them changes its own range. */
  lemma IdleRevisionIff(before: Revision, now: Option<Revision>, edits: seq<Edit>)
    requires Takes(Some(before), edits) && DocumentDone(Some(before), now, edits)
    ensures now.value.id != before.id && now.value.text == before.text
       <==> && CancelOut(before.text, Groups(Ordering(edits)), 0, 0)
            && exists r :: r in Groups(Ordering(edits)) && !SameText(before.text, r)
  {
    IdleSpliceIff(before.text, edits);
    if edits == [] { assert Ordering(edits) == []; }
  }

  /** Two such parts, on the text `aa`: replacements that touch, and replacements that do not. */
  lemma RevisionsMoveIdly(before: Revision, now: Option<Revision>, edits: seq<Edit>)
    requires before.text == "aa" && DocumentDone(Some(before), now, edits)
    requires edits == [Delete(0, 1), Insert(1, "a")] || edits == [Delete(0, 1), Insert(2, "a")]
    ensures now.value.id == before.id + 1 && now.value.text == before.text
  {
    if edits[1].at == 1 {
      MergedSpliceMayBeIdentity();
    } else {
      ApartSplicesMayCancel();
    }
    MovesIdly(before, now, edits);
  }

  lemma MovesIdly(before: Revision, now: Option<Revision>, edits: seq<Edit>)
    requires DocumentDone(Some(before), now, edits)
    requires edits != [] && Normal(before.text, edits) != [] && Naive(before.text, edits) == before.text
    ensures now.value.id == before.id + 1 && now.value.text == before.text
  {
  }

  lemma FoldedBatch(hash: Uri -> nat, before: Revisions, now: Revisions, edits: seq<(Uri, Edit)>, keys: seq<Uri>,
                    groups: map<Uri, seq<Edit>>, writes: Writes)
    requires Prepared(before, groups, keys, writes) && Folded(hash, before, writes, now)
    requires forall u: Uri :: u in keys <==> u in groups
    requires forall u: Uri :: u in groups <==> Mentions(edits, u)
    requires forall u :: u in groups ==> groups[u] == EditsFor(edits, u)
    ensures BatchDone(before, now, edits)
  {
    forall u: Uri ensures DocumentDone(Current(before, u), Current(now, u), EditsFor(edits, u)) {
      assert PreparedAt(before, groups, keys, writes, u);
      if u in writes {
        assert WriteOk(before[u], groups[u], writes[u].value);
      } else if u in before {
        Unedited(before[u].text, EditsFor(edits, u));
      }
    }
  }

  // ------------------------------------------------------------------ the workspace

  /** Ids issued to reopened documents, in order. */
  ghost predicate Issued(lineages: seq<(Uri, nat)>, serial: nat) {
    && (forall i :: 0 <= i < |lineages| ==> lineages[i].1 < serial)
    && (forall i, j :: 0 <= i < j < |lineages| ==> lineages[i].1 < lineages[j].1)
  }

  /** A live document carries its URI's own id or one issued at a reopening. */
  ghost predicate Identified(hash: Uri -> nat, lineages: seq<(Uri, nat)>, uri: Uri, revision: Option<Revision>) {
    revision.Some? ==> revision.value.document == hash(uri) || (uri, revision.value.document) in lineages
  }

  ghost predicate AllIdentified(hash: Uri -> nat, lineages: seq<(Uri, nat)>, revisions: Revisions) {
    forall u: Uri :: Identified(hash, lineages, u, Current(revisions, u))
  }

  ghost function TextsOf(revisions: Revisions): map<Uri, Text> {
    map u | u in revisions :: revisions[u].text
  }

  /** What opening `text` makes of a document's revision. */
  ghost predicate OpenDone(before: Option<Revision>, now: Option<Revision>, text: Text) {
    && now.Some? && now.value.text == text
    && (before.Some? && before.value.text == text ==> now == before)
    && (before.Some? && before.value.text != text ==>
          && now.value.id == before.value.id + 1 && now.value.document == before.value.document
          && now.value.previous == Some(before.value.id)
          && HoldsSplices(now.value.delta, [Repl(0, |before.value.text|, text)])
          && CarriesOver(now.value.islands, [Repl(0, |before.value.text|, text)], before.value.text, text))
    && (before.None? ==>
          && now.value.id == 1 && now.value.previous == None
          && now.value.delta == Load(|text|) && now.value.islands == [])
  }

  ghost predicate Consistent(hash: Uri -> nat, commands: map<Uri, Command>, revisions: Revisions, known: set<Uri>,
                             serial: nat, lineages: seq<(Uri, nat)>) {
    && commands.Keys == revisions.Keys <= known
    && Issued(lineages, serial) && AllIdentified(hash, lineages, revisions)
  }

  /** Everything an effective `open` changes. */
  ghost predicate Reopened(hash: Uri -> nat, before: Revisions, known: set<Uri>, old0: seq<(Uri, nat)>, now: Revisions,
                           lineages: seq<(Uri, nat)>, uri: Uri, text: Text) {
    && TextsOf(now) == TextsOf(before)[uri := text]
    && OpenDone(Current(before, uri), Current(now, uri), text)
    && (forall u: Uri :: u != uri ==> Current(now, u) == Current(before, u))
    && (uri !in known ==> uri in now && now[uri].document == hash(uri))
    && (uri in before || uri !in known ==> lineages == old0)
    && (uri !in before && uri in known ==>
          && uri in now && lineages == old0 + [(uri, now[uri].document)]
          && forall i :: 0 <= i < |old0| ==> old0[i].1 != now[uri].document)
  }

  class Workspace {
    const hash: Uri -> nat
    var commands: map<Uri, Command>
    var revisions: Revisions
    var openedDocuments: set<Uri>
    var serial: nat
    ghost var lineages: seq<(Uri, nat)>

    ghost predicate Valid()
      reads this
    {
      Consistent(hash, commands, revisions, openedDocuments, serial, lineages)
    }

    ghost function Texts(): map<Uri, Text>
      reads this
    {
      TextsOf(revisions)
    }

    constructor (hash: Uri -> nat)
      ensures Valid() && Texts() == map[] && openedDocuments == {} && this.hash == hash
    {
      this.hash := hash;
      commands, revisions, openedDocuments, serial, lineages := map[], map[], {}, 1, [];
    }

    /** `next_command_id` */
    method NextCommandId() returns (id: nat)
      modifies this`serial
      ensures id == old(serial) && serial == old(serial) + 1
    {
      id := serial;
      serial := serial + 1;
    }

    /** One engine command over `SourceEdits`: all written documents are folded, or nothing
        changes. */
    method Commit(writes: Writes) returns (ok: bool)
      requires forall u :: u in writes && writes[u].Some? ==> Leads(Current(revisions, u), writes[u].value)
      modifies this`commands, this`revisions
      ensures ok <==> CanCommit(old(revisions), writes)
      ensures ok ==> Folded(hash, old(revisions), writes, revisions) && Stored(old(commands), writes, commands)
      ensures !ok ==> revisions == old(revisions) && commands == old(commands)
    {
      var todo, next, stored := writes.Keys, revisions, commands;
      while todo != {}
        invariant todo <= writes.Keys && revisions == old(revisions) && commands == old(commands)
        invariant CanCommit(revisions, writes - todo)
        invariant Folded(hash, revisions, writes - todo, next) && Stored(commands, writes - todo, stored)
        decreases todo
      {
        var u :| u in todo;
        ghost var done := writes - todo;
        todo := todo - {u};
        assert writes - todo == done[u := writes[u]];
        var folded := SourceDocument(hash, u, Current(revisions, u), writes[u]);
        if folded.Err? { return false; }
        if folded.value.Some? {
          next, stored := next[u := folded.value.value], stored[u := writes[u].value];
        } else {
          next, stored := next - {u}, stored - {u};
        }
      }
      assert writes - todo == writes;
      revisions, commands := next, stored;
      return true;
    }

    /** `open`: opening identical content changes nothing; a document that was closed before
        gets an id different from every earlier reopened one. */
    method Open(uri: Uri, text: Text) returns (ok: bool)
      requires Valid()
      modifies this
      ensures Valid() && ok && openedDocuments == old(openedDocuments) + {uri}
      ensures Reopened(hash, old(revisions), old(openedDocuments), old(lineages), revisions, lineages, uri, text)
    {
      var existing := Current(revisions, uri);
      if existing.Some? && existing.value.text == text {
        assert TextsOf(revisions)[uri := text] == TextsOf(revisions);
        return true;
      }
      var delta := if existing.Some? then Edits([Splice(0, |existing.value.text|, 0, |text|)]) else Load(|text|);
      var id := NextCommandId();
      var reopened := existing.None? && uri in openedDocuments;
      var command := Command(id, if reopened then Some(id) else None, BaseOf(existing), delta, text);
      ReplacesAll(existing, command);
      ok := Commit(map[uri := Some(command)]);
      openedDocuments := openedDocuments + {uri};
      if reopened { lineages := lineages + [(uri, id)]; }
      OpenFolded(hash, old(revisions), revisions, uri, command);
      StoredOne(old(commands), commands, uri, command);
      OpenHolds(hash, old(revisions), old(openedDocuments), old(lineages), revisions, lineages, uri, command,
        old(serial));
    }

    /** `close` */
    method Close(uri: Uri) returns (ok: bool)
      requires Valid()
      modifies this
      ensures Valid() && ok && openedDocuments == old(openedDocuments) && lineages == old(lineages)
      ensures Texts() == old(Texts()) - {uri} && revisions == old(revisions) - {uri}
    {
      ok := Commit(map[uri := None]);
      CloseFolded(hash, old(revisions), revisions, uri);
      assert forall u: Uri :: Identified(hash, lineages, u, Current(old(revisions), u));
    }

    /** The loop of `edit` over the grouped documents. */
    method PrepareAll(keys: seq<Uri>, groups: map<Uri, seq<Edit>>) returns (r: Result<Writes, EditError>)
      requires Increasing(keys) && forall u :: u in keys ==> u in groups && groups[u] != []
      modifies this`serial
      ensures serial >= old(serial)
      ensures r.Ok? ==> Prepared(revisions, groups, keys, r.value)
      ensures r.Err? ==> exists k :: StopsAt(revisions, keys, groups, k, r.error)
    {
      var writes: Writes := map[];
      for k := 0 to |keys|
        invariant Prepared(revisions, groups, keys[..k], writes) && serial >= old(serial)
        invariant forall j :: 0 <= j < k ==> Takes(Current(revisions, keys[j]), groups[keys[j]])
      {
        var uri := keys[k];
        assert uri in keys;
        var prepared := PrepareDocument(Current(revisions, uri), groups[uri], serial);
        if prepared.Err? {
          assert StopsAt(revisions, keys, groups, k, prepared.error);
          return Err(prepared.error);
        }
        PreparedStep(revisions, groups, keys, k, writes, prepared.value);
        if prepared.value.Some? {
          var id := NextCommandId();
          writes := writes[uri := prepared.value];
        }
      }
      assert keys[..|keys|] == keys;
      return Ok(writes);
    }

    /** `edit`: accepted exactly when every mentioned document is open and accepts its part;
        then the texts are the naively edited ones, and exactly the documents left with a
        splice get the next revision.  A rejected batch changes nothing. */
    method Edit(edits: seq<(Uri, Edit)>) returns (r: Result<(), EditError>)
      requires Valid()
      modifies this
      ensures Valid() && openedDocuments == old(openedDocuments) && lineages == old(lineages)
      ensures r.Ok? <==> BatchAccepted(old(Texts()), edits)
      ensures r.Err? ==> revisions == old(revisions) && commands == old(commands)
      ensures r.Err? ==> Refused(old(Texts()), edits, r.error)
      ensures r.Ok? ==> Texts() == EditedTexts(old(Texts()), edits) && BatchDone(old(revisions), revisions, edits)
    {
      var keys, groups := GroupByUri(edits);
      var prepared := PrepareAll(keys, groups);
      if prepared.Err? {
        BatchRejected(revisions, edits, keys, groups, prepared.error);
        return Err(prepared.error);
      }
      PreparedAccepts(revisions, edits, keys, groups, prepared.value);
      PreparedLeads(revisions, groups, keys, prepared.value);
      var ok := Commit(prepared.value);
      assert ok;
      BatchHolds(hash, old(commands), old(revisions), commands, revisions, lineages, edits, keys, groups,
        prepared.value);
      return Ok(());
    }
  }

  // ------------------------------------------------------------------ steps of the proofs

  lemma OpenFolded(hash: Uri -> nat, before: Revisions, now: Revisions, uri: Uri, command: Command)
    requires Folded(hash, before, map[uri := Some(command)], now)
    ensures Current(now, uri) == Some(NextRevision(hash, uri, Current(before, uri), command))
    ensures forall u: Uri :: u != uri ==> Current(now, u) == Current(before, u)
    ensures now.Keys == before.Keys + {uri}
    ensures TextsOf(now) == TextsOf(before)[uri := command.nextText]
  {
    forall u: Uri ensures u in now <==> u in before || u == uri {
      assert Current(now, u).Some? <==> u in now;
    }
    forall u: Uri | u in before && u != uri ensures now[u] == before[u] {
      assert Current(now, u) == Current(before, u);
    }
  }

  lemma ReplacesAll(existing: Option<Revision>, command: Command)
    requires existing.Some? ==> command.delta == Edits([Splice(0, |existing.value.text|, 0, |command.nextText|)])
    requires existing.None? ==> command.delta.Load?
    ensures Leads(existing, command)
  {
    if existing.Some? { assert command.delta.splices[1..] == []; }
  }

  /** Replacing the whole text, as one splice. */
  lemma WholeText(base: Text, text: Text, splices: seq<Splice>)
    requires splices == [Splice(0, |base|, 0, |text|)]
    ensures HoldsSplices(Edits(splices), [Repl(0, |base|, text)])
    ensures CarriesOver(Islands(splices, 0, 0, |base|), [Repl(0, |base|, text)], base, text)
  {
    var repls := [Repl(0, |base|, text)];
    assert repls[1..] == [];
    assert RendersAt(splices, Pieces(repls), repls, 0);
    assert Replaced(base, repls, 0) == base[0..0] + text + base[|base|..] == text;
    MapCarriesOver(base, splices, Pieces(repls), repls);
  }

  lemma StoredOne(before: map<Uri, Command>, now: map<Uri, Command>, uri: Uri, command: Command)
    requires Stored(before, map[uri := Some(command)], now)
    ensures now.Keys == before.Keys + {uri}
  {
  }

  lemma OpenHolds(hash: Uri -> nat, before: Revisions, known: set<Uri>, old0: seq<(Uri, nat)>, now: Revisions,
                  lineages: seq<(Uri, nat)>, uri: Uri, command: Command, serial: nat)
    requires before.Keys <= known && Issued(old0, serial) && AllIdentified(hash, old0, before)
    requires uri in before ==> before[uri].text != command.nextText
    requires command.delta == if uri in before then Edits([Splice(0, |before[uri].text|, 0, |command.nextText|)])
                              else Load(|command.nextText|)
    requires var reopened := uri !in before && uri in known;
      && command.freshId == (if reopened then Some(serial) else None)
      && lineages == if reopened then old0 + [(uri, serial)] else old0
    requires Current(now, uri) == Some(NextRevision(hash, uri, Current(before, uri), command))
    requires forall u: Uri :: u != uri ==> Current(now, u) == Current(before, u)
    requires TextsOf(now) == TextsOf(before)[uri := command.nextText]
    ensures Issued(lineages, serial + 1) && AllIdentified(hash, lineages, now)
    ensures Reopened(hash, before, known, old0, now, lineages, uri, command.nextText)
  {
    if uri !in before && uri in known { assert lineages[|old0|] == (uri, serial); }
    if uri in before { WholeText(before[uri].text, command.nextText, command.delta.splices); }
    forall u: Uri ensures Identified(hash, lineages, u, Current(now, u)) {
      assert Identified(hash, old0, u, Current(before, u));
      forall x | x in old0 ensures x in lineages { }
    }
  }

  lemma CloseFolded(hash: Uri -> nat, before: Revisions, now: Revisions, uri: Uri)
    requires Folded(hash, before, map[uri := None], now)
    ensures now == before - {uri}
    ensures forall u: Uri :: u != uri ==> Current(now, u) == Current(before, u)
  {
    forall u: Uri
      ensures u in now <==> u in before && u != uri
      ensures u in now ==> now[u] == before[u]
    {
      assert Current(now, u) == if u == uri then None else Current(before, u);
    }
  }

  lemma PreparedAccepts(revisions: Revisions, edits: seq<(Uri, Edit)>, keys: seq<Uri>, groups: map<Uri, seq<Edit>>,
                        writes: Writes)
    requires Prepared(revisions, groups, keys, writes)
    requires forall u: Uri :: u in keys <==> u in groups
    requires forall u: Uri :: u in groups <==> Mentions(edits, u)
    requires forall u :: u in groups ==> groups[u] == EditsFor(edits, u)
    ensures BatchAccepted(TextsOf(revisions), edits)
  {
    forall u: Uri | Mentions(edits, u) ensures AcceptedFor(TextsOf(revisions), edits, u) {
      assert PreparedAt(revisions, groups, keys, writes, u);
    }
  }

  /** What a committed batch leaves behind. */
  lemma BatchHolds(hash: Uri -> nat, commands0: map<Uri, Command>, before: Revisions, commands: map<Uri, Command>,
                   now: Revisions, lineages: seq<(Uri, nat)>, edits: seq<(Uri, Edit)>, keys: seq<Uri>,
                   groups: map<Uri, seq<Edit>>, writes: Writes)
    requires Prepared(before, groups, keys, writes) && Folded(hash, before, writes, now)
    requires Stored(commands0, writes, commands) && commands0.Keys == before.Keys
    requires AllIdentified(hash, lineages, before)
    requires forall u: Uri :: u in keys <==> u in groups
    requires forall u: Uri :: u in groups <==> Mentions(edits, u)
    requires forall u :: u in groups ==> groups[u] == EditsFor(edits, u)
    ensures BatchDone(before, now, edits) && AllIdentified(hash, lineages, now)
    ensures now.Keys == before.Keys == commands.Keys && TextsOf(now) == EditedTexts(TextsOf(before), edits)
  {
    FoldedBatch(hash, before, now, edits, keys, groups, writes);
    BatchTexts(before, now, edits);
    BatchIdentities(hash, lineages, before, now, edits);
    PreparedLeads(before, groups, keys, writes);
    StoredKeys(commands0, before, commands, writes);
  }

  lemma BatchRejected(revisions: Revisions, edits: seq<(Uri, Edit)>, keys: seq<Uri>, groups: map<Uri, seq<Edit>>,
                      error: EditError)
    requires Increasing(keys) && forall u: Uri :: u in keys <==> u in groups
    requires forall u: Uri :: u in groups <==> Mentions(edits, u)
    requires forall u :: u in groups ==> groups[u] == EditsFor(edits, u)
    requires exists k :: StopsAt(revisions, keys, groups, k, error)
    ensures !BatchAccepted(TextsOf(revisions), edits) && Refused(TextsOf(revisions), edits, error)
  {
    var k :| StopsAt(revisions, keys, groups, k, error);
    var texts, uri := TextsOf(revisions), keys[k];
    assert Mentions(edits, uri) && !AcceptedFor(texts, edits, uri);
    forall u: Uri | Mentions(edits, u) && u.rank < uri.rank ensures AcceptedFor(texts, edits, u) {
      var j :| 0 <= j < |keys| && keys[j] == u;
    }
    assert FirstRefusal(texts, edits, uri) && TextAt(texts, uri) == TextIn(Current(revisions, uri));
  }

  lemma PreparedLeads(revisions: Revisions, groups: map<Uri, seq<Edit>>, keys: seq<Uri>, writes: Writes)
    requires Prepared(revisions, groups, keys, writes)
    ensures CanCommit(revisions, writes)
    ensures forall u :: u in writes ==> writes[u].Some? && u in revisions
    ensures forall u :: u in writes ==> writes[u].Some? && Leads(Current(revisions, u), writes[u].value)
  {
    forall u | u in writes
      ensures writes[u].Some? && u in revisions && Leads(Current(revisions, u), writes[u].value)
      ensures writes[u].value.base == BaseOf(Current(revisions, u))
    {
      assert PreparedAt(revisions, groups, keys, writes, u);
    }
  }

  lemma BatchTexts(before: Revisions, now: Revisions, edits: seq<(Uri, Edit)>)
    requires BatchDone(before, now, edits)
    ensures now.Keys == before.Keys && TextsOf(now) == EditedTexts(TextsOf(before), edits)
  {
    forall u: Uri
      ensures u in now <==> u in before
      ensures u in now ==> now[u].text == Naive(before[u].text, EditsFor(edits, u))
    {
      assert DocumentDone(Current(before, u), Current(now, u), EditsFor(edits, u));
    }
  }

  lemma BatchIdentities(hash: Uri -> nat, lineages: seq<(Uri, nat)>, before: Revisions, now: Revisions,
                        edits: seq<(Uri, Edit)>)
    requires BatchDone(before, now, edits) && AllIdentified(hash, lineages, before)
    ensures AllIdentified(hash, lineages, now)
  {
    forall u: Uri ensures Identified(hash, lineages, u, Current(now, u)) {
      assert DocumentDone(Current(before, u), Current(now, u), EditsFor(edits, u));
      assert Identified(hash, lineages, u, Current(before, u));
    }
  }

  lemma StoredKeys(before: map<Uri, Command>, revisions: Revisions, now: map<Uri, Command>, writes: Writes)
    requires before.Keys == revisions.Keys && Stored(before, writes, now)
    requires forall u :: u in writes ==> writes[u].Some? && u in revisions
    ensures now.Keys == revisions.Keys
  {
  }
}
