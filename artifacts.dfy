/** The artifact repository of components/ArtifactRepository.tsx: every
    task's artifacts flattened into one list tagged with their parent task,
    and the search and type filter over that list. */
module Artifacts {
  import opened Types
  import opened JsString

  /** `{ ...a, parentTask: t.title, parentId: t.id }` */
  datatype ArtifactEntry = ArtifactEntry(artifact: Artifact, parentTask: string, parentId: string)

  /** One task's artifacts, tagged; an absent list reads as empty. */
  function Tagged(t: Task): (r: seq<ArtifactEntry>)
    ensures |r| == |OrEmpty(t.artifacts)|
    ensures forall i :: 0 <= i < |r| ==>
      r[i].artifact == OrEmpty(t.artifacts)[i] && r[i].parentTask == t.title && r[i].parentId == t.id
  {
    TagAll(OrEmpty(t.artifacts), t)
  }

  /** `arts.map(a => ({ ...a, parentTask: t.title, parentId: t.id }))` */
  function TagAll(arts: seq<Artifact>, t: Task): (r: seq<ArtifactEntry>)
    ensures |r| == |arts|
    ensures forall i :: 0 <= i < |r| ==> r[i] == ArtifactEntry(arts[i], t.title, t.id)
  {
    if arts == [] then [] else [ArtifactEntry(arts[0], t.title, t.id)] + TagAll(arts[1..], t)
  }

  /** `allArtifacts` (lines 24-26): `tasks.flatMap(...)`, task by task in registry order. */
  function AllArtifacts(tasks: seq<Task>): (r: seq<ArtifactEntry>)
    ensures |r| == ArtifactCount(tasks)
  {
    if tasks == [] then [] else Tagged(tasks[0]) + AllArtifacts(tasks[1..])
  }

  /** A single task contributes its tagged artifacts, in their own order. */
  lemma AllArtifactsSingle(t: Task)
    ensures AllArtifacts([t]) == Tagged(t)
  {
    assert [t][1..] == [];
  }

  /** The sum over the registry of each task's artifact count. */
  function ArtifactCount(tasks: seq<Task>): nat {
    if tasks == [] then 0 else |OrEmpty(tasks[0].artifacts)| + ArtifactCount(tasks[1..])
  }

  /** Flattening distributes over concatenation of registries, so the
      entries of earlier tasks come before those of later ones. */
  lemma {:induction false} AllArtifactsAppend(a: seq<Task>, b: seq<Task>)
    ensures AllArtifacts(a + b) == AllArtifacts(a) + AllArtifacts(b)
  {
    if a == [] {
      assert a + b == b;
    } else {
      assert (a + b)[1..] == a[1..] + b;
      AllArtifactsAppend(a[1..], b);
    }
  }

  /** `e` is an artifact of `t`, tagged with `t`'s title and id. */
  predicate TaggedBy(e: ArtifactEntry, t: Task) {
    e.artifact in OrEmpty(t.artifacts) && e.parentTask == t.title && e.parentId == t.id
  }

  /** An entry is in the flattened list exactly when it is an artifact of
      some task of the registry, tagged with that task's title and id. */
  lemma {:induction false} AllArtifactsMembers(tasks: seq<Task>, e: ArtifactEntry)
    ensures e in AllArtifacts(tasks) <==> exists i :: 0 <= i < |tasks| && TaggedBy(e, tasks[i])
  {
    if tasks != [] {
      AllArtifactsMembers(tasks[1..], e);
      var t := tasks[0];
      var arts := OrEmpty(t.artifacts);
      if e in Tagged(t) {
        var k :| 0 <= k < |Tagged(t)| && Tagged(t)[k] == e;
        assert e.artifact == arts[k];
        assert TaggedBy(e, tasks[0]);
      }
      if TaggedBy(e, t) {
        var k :| 0 <= k < |arts| && arts[k] == e.artifact;
        assert Tagged(t)[k] == e;
      }
      if exists i :: 0 <= i < |tasks[1..]| && TaggedBy(e, tasks[1..][i]) {
        var i :| 0 <= i < |tasks[1..]| && TaggedBy(e, tasks[1..][i]);
        assert tasks[i + 1] == tasks[1..][i];
      }
      if exists i :: 0 <= i < |tasks| && TaggedBy(e, tasks[i]) {
        var i :| 0 <= i < |tasks| && TaggedBy(e, tasks[i]);
        if i > 0 {
          assert tasks[1..][i - 1] == tasks[i];
        }
      }
    }
  }

  /** The type buttons: `all`, or one artifact type. */
  datatype TypeFilter = All | Only(kind: ArtifactType)

  /** `matchesSearch` (lines 30-31): the lower-cased term occurs in the
      lower-cased label or in the lower-cased parent title. */
  predicate MatchesSearch(e: ArtifactEntry, term: string)
    ensures MatchesSearch(e, term) <==>
      OccursIn(ToLower(e.artifact.labelText), ToLower(term)) || OccursIn(ToLower(e.parentTask), ToLower(term))
  {
    IncludesIff(ToLower(e.artifact.labelText), ToLower(term));
    IncludesIff(ToLower(e.parentTask), ToLower(term));
    Includes(ToLower(e.artifact.labelText), ToLower(term)) || Includes(ToLower(e.parentTask), ToLower(term))
  }

  /** `matchesFilter` (line 32) */
  predicate MatchesFilter(e: ArtifactEntry, f: TypeFilter)
    ensures f.All? ==> MatchesFilter(e, f)
    ensures f.Only? ==> (MatchesFilter(e, f) <==> e.artifact.kind == f.kind)
  {
    f.All? || e.artifact.kind == f.kind
  }

  /** `filteredArtifacts` (lines 28-35): the entries that match both, in order. */
  function FilteredArtifacts(entries: seq<ArtifactEntry>, term: string, f: TypeFilter): (r: seq<ArtifactEntry>)
    ensures IsSubsequence(r, entries)
    ensures forall e :: e in r <==> e in entries && MatchesSearch(e, term) && MatchesFilter(e, f)
    ensures forall e :: multiset(r)[e] == if MatchesSearch(e, term) && MatchesFilter(e, f) then multiset(entries)[e] else 0
  {
    if entries == [] then []
    else
      assert entries == [entries[0]] + entries[1..];
      var rest := FilteredArtifacts(entries[1..], term, f);
      if MatchesSearch(entries[0], term) && MatchesFilter(entries[0], f) then [entries[0]] + rest
      else
        assert rest != [] ==> rest[0] in rest;
        rest
  }

  /** Every entry matches the empty term. */
  lemma EmptyTermMatches(e: ArtifactEntry)
    ensures MatchesSearch(e, "")
  {
    assert ToLower("") == "";
    assert "" <= ToLower(e.artifact.labelText);
  }

  /** The initial view, empty search and filter `all`, lists every artifact. */
  lemma {:induction false} EmptySearchKeepsAll(entries: seq<ArtifactEntry>)
    ensures FilteredArtifacts(entries, "", All) == entries
  {
    if entries != [] {
      EmptyTermMatches(entries[0]);
      EmptySearchKeepsAll(entries[1..]);
    }
  }

  /** A type filter other than `all` keeps only artifacts of exactly that type. */
  lemma OnlyKeepsKind(entries: seq<ArtifactEntry>, term: string, k: ArtifactType)
    ensures forall e :: e in FilteredArtifacts(entries, term, Only(k)) ==> e.artifact.kind == k
  {
  }

  /** Filtering distributes over concatenation. */
  lemma {:induction false} FilteredAppend(a: seq<ArtifactEntry>, b: seq<ArtifactEntry>, term: string, f: TypeFilter)
    ensures FilteredArtifacts(a + b, term, f) == FilteredArtifacts(a, term, f) + FilteredArtifacts(b, term, f)
  {
    if a == [] {
      assert a + b == b;
    } else {
      assert (a + b)[1..] == a[1..] + b;
      FilteredAppend(a[1..], b, term, f);
    }
  }
}
