/**
 * Projects and project matching (convex/projects.js).
 *
 * A project is stored as a row, then ingested as six text chunks that all carry the
 * same metadata record. Matching takes the chunks the vector store returned for a
 * job description, each with a similarity score, keeps the caller's own chunks,
 * averages the scores per project, ranks the projects by that mean and keeps those
 * strictly above the relevance threshold. The embedding provider and the vector store
 * are not modelled: ingestion returns the texts and metadata it would hand to the
 * store, and matching receives the store's scored results as input.
 */
module Projects {
  import opened Wrappers
  import opened Text
  import opened Seqs
  import Ranking

  const MISSING_KEY_ERROR := "GEMINI_API_KEY missing."
  /** Shown in the Domain chunk and the metadata when a project has no domain. */
  const DEFAULT_DOMAIN := "General"
  /** Shown in the Summary chunk when a project has no domain. */
  const SUMMARY_DEFAULT_DOMAIN := "general applications"
  const SOURCE_TAG := "project"
  const SKILL_SEPARATOR := ", "
  /** The number of nearest chunks requested from the vector store. */
  const TOP_K := 15
  /** A project is reported only when its mean score is strictly greater than this. */
  const THRESHOLD: real := 0.5
  const CHUNK_LABELS := ["Project Name: ", "Category: ", "Domain: ", "Description: ", "Skills: ", "Summary: "]

  /** The arguments of `addProject`; `ingestProject` takes the same ones plus the project id. */
  datatype ProjectFields = ProjectFields(
    userEmail: string,
    projectName: string,
    description: string,
    skills: seq<string>,
    projectURL: string,
    category: string,
    domain: Option<string>)

  datatype ProjectRow = ProjectRow(id: nat, fields: ProjectFields, createdAt: int)

  /** The `projects` table. */
  class ProjectsTable {
    var rows: seq<ProjectRow>
    var nextId: nat

    ghost predicate Valid()
      reads this
    {
      forall i :: 0 <= i < |rows| ==> rows[i].id < nextId
    }

    constructor ()
      ensures Valid() && rows == []
    {
      rows, nextId := [], 0;
    }

    /** `addProject`: inserts one row with the given fields and the current time, and returns its id. */
    method AddProject(fields: ProjectFields, now: int) returns (id: nat)
      requires Valid()
      modifies this
      ensures Valid()
      ensures rows == old(rows) + [ProjectRow(id, fields, now)]
      ensures forall i :: 0 <= i < |old(rows)| ==> old(rows)[i].id != id
    {
      id := nextId;
      rows := rows + [ProjectRow(id, fields, now)];
      nextId := nextId + 1;
    }
  }

  // ---------------------------------------------------------------------------------
  // Ingestion

  /** The metadata stored with every chunk of a project. */
  datatype Metadata = Metadata(
    projectId: string,
    userEmail: string,
    projectName: string,
    category: string,
    domain: string,
    source: string)

  datatype Ingestion = Ingestion(texts: seq<string>, metadatas: seq<Metadata>, message: string)

  /** `!apiKey`: the key is unset or empty. */
  predicate KeyMissing(apiKey: Option<string>) {
    apiKey.None? || apiKey.value == ""
  }

  /** The six chunk texts, one per facet, in the order of CHUNK_LABELS. */
  function ChunkTexts(p: ProjectFields): (texts: seq<string>)
    ensures |texts| == |CHUNK_LABELS|
    ensures forall i :: 0 <= i < |texts| ==> StartsWith(texts[i], CHUNK_LABELS[i])
  {
    var skills := Join(p.skills, SKILL_SEPARATOR);
    [ "Project Name: " + p.projectName,
      "Category: " + p.category,
      "Domain: " + p.domain.GetOr(DEFAULT_DOMAIN),
      "Description: " + p.description,
      "Skills: " + skills,
      "Summary: " + p.projectName + " is a " + p.category + " project focused on "
        + p.domain.GetOr(SUMMARY_DEFAULT_DOMAIN) + " using " + skills + "." ]
  }

  function ChunkMetadata(projectId: string, p: ProjectFields): Metadata {
    Metadata(projectId, p.userEmail, p.projectName, p.category, p.domain.GetOr(DEFAULT_DOMAIN), SOURCE_TAG)
  }

  /** `ingestProject` up to the vector-store write: the texts and metadata it writes, and its reply. */
  function Ingest(apiKey: Option<string>, projectId: string, p: ProjectFields): (r: Result<Ingestion, string>)
    ensures r.Failure? <==> KeyMissing(apiKey)
    ensures r.Failure? ==> r.error == MISSING_KEY_ERROR
    ensures r.Success? ==> r.value.texts == ChunkTexts(p)
    ensures r.Success? ==>
      r.value.message == "Embedded project \"" + p.projectName + "\" with category \"" + p.category + "\"."
    ensures r.Success? ==>
      && |r.value.texts| == 6
      && |r.value.metadatas| == |r.value.texts|
      && forall i :: 0 <= i < |r.value.metadatas| ==>
           r.value.metadatas[i] == Metadata(projectId, p.userEmail, p.projectName, p.category,
                                            p.domain.GetOr(DEFAULT_DOMAIN), SOURCE_TAG)
  {
    if KeyMissing(apiKey) then Failure(MISSING_KEY_ERROR)
    else
      var texts := ChunkTexts(p);
      var metadatas := seq(|texts|, _ => ChunkMetadata(projectId, p));
      Success(Ingestion(texts, metadatas,
        "Embedded project \"" + p.projectName + "\" with category \"" + p.category + "\"."))
  }

  /** Every ingestion yields the same number of chunks, whatever the field values. */
  lemma IngestShape(apiKey: Option<string>, id1: string, p1: ProjectFields, id2: string, p2: ProjectFields)
    requires !KeyMissing(apiKey)
    ensures |Ingest(apiKey, id1, p1).value.texts| == |Ingest(apiKey, id2, p2).value.texts| == 6
    ensures forall i, j :: 0 <= i < j < 6 ==>
      Ingest(apiKey, id1, p1).value.metadatas[i] == Ingest(apiKey, id1, p1).value.metadatas[j]
  {
  }

  /** Skills are rendered once, joined by ", ", and the same rendering ends the summary. */
  lemma IngestSkills(p: ProjectFields)
    ensures ChunkTexts(p)[4] == "Skills: " + Join(p.skills, ", ")
    ensures EndsWith(ChunkTexts(p)[5], " using " + Join(p.skills, ", ") + ".")
  {
    var t := ChunkTexts(p)[5];
    var u := " using " + Join(p.skills, ", ") + ".";
    assert t == ("Summary: " + p.projectName + " is a " + p.category + " project focused on "
        + p.domain.GetOr(SUMMARY_DEFAULT_DOMAIN)) + u;
  }

  /** Without a domain the Domain chunk and the metadata say "General" and the summary says "general applications". */
  lemma {:induction false} IngestDefaultDomain(apiKey: Option<string>, projectId: string, p: ProjectFields)
    requires p.domain.None? && !KeyMissing(apiKey)
    ensures Ingest(apiKey, projectId, p).value.texts[2] == "Domain: General"
    ensures forall m :: m in Ingest(apiKey, projectId, p).value.metadatas ==> m.domain == "General"
    ensures Contains(Ingest(apiKey, projectId, p).value.texts[5], "general applications")
  {
    var skills := Join(p.skills, SKILL_SEPARATOR);
    var before := "Summary: " + p.projectName + " is a " + p.category + " project focused on ";
    var after := " using " + skills + ".";
    assert ChunkTexts(p)[5] == before + SUMMARY_DEFAULT_DOMAIN + after;
    ContainsMiddle(before, SUMMARY_DEFAULT_DOMAIN, after);
  }

  // ---------------------------------------------------------------------------------
  // Matching: reference definitions

  /** One result of the similarity search: a chunk's metadata and its score. */
  type Retrieved = (Metadata, real)

  datatype MatchResult = MatchResult(projectId: string, projectName: string, avgScore: real)

  function AvgScore(m: MatchResult): real { m.avgScore }
  function ProjectIdOf(m: MatchResult): string { m.projectId }

  predicate OwnedBy(r: Retrieved, user: string) {
    r.0.userEmail == user
  }

  /** The scores, in retrieval order, of the caller's chunks that belong to project `pid`. */
  function ScoresOf(rs: seq<Retrieved>, user: string, pid: string): seq<real> {
    if rs == [] then []
    else (if OwnedBy(rs[0], user) && rs[0].0.projectId == pid then [rs[0].1] else [])
         + ScoresOf(rs[1..], user, pid)
  }

  function Sum(xs: seq<real>): real {
    if xs == [] then 0.0 else xs[0] + Sum(xs[1..])
  }

  /** The arithmetic mean of a project's chunk scores. */
  function MeanScore(rs: seq<Retrieved>, user: string, pid: string): real
    requires ScoresOf(rs, user, pid) != []
  {
    Sum(ScoresOf(rs, user, pid)) / (|ScoresOf(rs, user, pid)| as real)
  }

  /** The project name carried by the caller's first chunk of project `pid`. */
  function FirstName(rs: seq<Retrieved>, user: string, pid: string): string
    requires ScoresOf(rs, user, pid) != []
  {
    if OwnedBy(rs[0], user) && rs[0].0.projectId == pid then rs[0].0.projectName
    else FirstName(rs[1..], user, pid)
  }

  /** Only the caller's chunks. */
  function OwnedOnly(rs: seq<Retrieved>, user: string): (r: seq<Retrieved>)
    ensures forall x :: x in r <==> x in rs && OwnedBy(x, user)
  {
    if rs == [] then []
    else (if OwnedBy(rs[0], user) then [rs[0]] else []) + OwnedOnly(rs[1..], user)
  }

  // ---------------------------------------------------------------------------------
  // Matching: the aggregation as the loop computes it

  /** The running total, count and first-seen name kept per project. */
  datatype Entry = Entry(projectName: string, total: real, count: nat)

  /** One iteration of the loop body. */
  function Accumulate(g: map<string, Entry>, r: Retrieved, user: string): map<string, Entry> {
    if !OwnedBy(r, user) then g
    else
      var pid := r.0.projectId;
      var e := if pid in g then g[pid] else Entry(r.0.projectName, 0.0, 0);
      g[pid := Entry(e.projectName, e.total + r.1, e.count + 1)]
  }

  /** The map the loop has built after the results `rs`. */
  function Grouped(rs: seq<Retrieved>, user: string): map<string, Entry> {
    if rs == [] then map[]
    else Accumulate(Grouped(rs[..|rs| - 1], user), rs[|rs| - 1], user)
  }

  /** The map's keys in insertion order, which is the order `Array.from(map.entries())` yields. */
  function FirstSeen(rs: seq<Retrieved>, user: string): seq<string> {
    if rs == [] then []
    else
      var prev := rs[..|rs| - 1];
      var r := rs[|rs| - 1];
      if OwnedBy(r, user) && r.0.projectId !in Grouped(prev, user)
      then FirstSeen(prev, user) + [r.0.projectId]
      else FirstSeen(prev, user)
  }

  /** `total / count` for every key, in the given order. */
  function AverageAll(g: map<string, Entry>, keys: seq<string>): (r: seq<MatchResult>)
    requires forall k :: k in keys ==> k in g && g[k].count > 0
    ensures |r| == |keys|
  {
    seq(|keys|, i requires 0 <= i < |keys| =>
      MatchResult(keys[i], g[keys[i]].projectName, g[keys[i]].total / (g[keys[i]].count as real)))
  }

  /** `filter((p) => p.avgScore > 0.5)` */
  function AboveThreshold(s: seq<MatchResult>): (r: seq<MatchResult>)
    ensures forall m :: m in r <==> m in s && m.avgScore > THRESHOLD
  {
    if s == [] then []
    else
      var rest := AboveThreshold(s[1..]);
      if s[0].avgScore > THRESHOLD then [s[0]] + rest else rest
  }

  /** The threshold filter keeps the order and the one-entry-per-project property. */
  lemma {:induction false} AboveThresholdKeeps(s: seq<MatchResult>)
    ensures Ranking.SortedDesc(s, AvgScore) ==> Ranking.SortedDesc(AboveThreshold(s), AvgScore)
    ensures Ranking.DistinctBy(s, ProjectIdOf) ==> Ranking.DistinctBy(AboveThreshold(s), ProjectIdOf)
  {
    if s != [] {
      AboveThresholdKeeps(s[1..]);
      var rest := AboveThreshold(s[1..]);
      if s[0].avgScore > THRESHOLD {
        assert AboveThreshold(s) == [s[0]] + rest;
        if Ranking.SortedDesc(s, AvgScore) {
          Ranking.SortedHead(s, AvgScore);
          Ranking.ConsSorted(s[0], rest, AvgScore);
        }
        if Ranking.DistinctBy(s, ProjectIdOf) {
          Ranking.DistinctHead(s, ProjectIdOf);
          Ranking.ConsDistinct(s[0], rest, ProjectIdOf);
        }
      } else {
        if Ranking.SortedDesc(s, AvgScore) {
          Ranking.SortedHead(s, AvgScore);
        }
        if Ranking.DistinctBy(s, ProjectIdOf) {
          Ranking.DistinctHead(s, ProjectIdOf);
        }
      }
    }
  }

  function Averaged(rs: seq<Retrieved>, user: string): seq<MatchResult> {
    FirstSeenMeaning(rs, user);
    AverageAll(Grouped(rs, user), FirstSeen(rs, user))
  }

  function Ranked(rs: seq<Retrieved>, user: string): seq<MatchResult> {
    AboveThreshold(Ranking.SortDesc(Averaged(rs, user), AvgScore))
  }

  /** `matchProjects`, from the scored search results onwards. */
  function Match(apiKey: Option<string>, user: string, results: seq<Retrieved>): Result<seq<MatchResult>, string> {
    if KeyMissing(apiKey) then Failure(MISSING_KEY_ERROR) else Success(Ranked(results, user))
  }

  /**
   * `matchProjects`: the owner filter and the grouping loop over a map, then the
   * average, sort and threshold pipeline.
   */
  method MatchProjects(apiKey: Option<string>, user: string, results: seq<Retrieved>)
    returns (r: Result<seq<MatchResult>, string>)
    requires |results| <= TOP_K
    ensures r == Match(apiKey, user, results)
    ensures r.Failure? <==> KeyMissing(apiKey)
  {
    if KeyMissing(apiKey) {
      return Failure(MISSING_KEY_ERROR);
    }
    var scoresByProject: map<string, Entry> := map[];
    var order: seq<string> := [];
    for i := 0 to |results|
      invariant scoresByProject == Grouped(results[..i], user)
      invariant order == FirstSeen(results[..i], user)
    {
      assert results[..i + 1][..i] == results[..i];
      var (doc, score) := results[i];
      if doc.userEmail != user {
        continue;
      }
      var pid := doc.projectId;
      if pid !in scoresByProject {
        scoresByProject := scoresByProject[pid := Entry(doc.projectName, 0.0, 0)];
        order := order + [pid];
      }
      var entry := scoresByProject[pid];
      scoresByProject := scoresByProject[pid := Entry(entry.projectName, entry.total + score, entry.count + 1)];
    }
    assert results[..|results|] == results;
    FirstSeenMeaning(results, user);
    var averaged := AverageAll(scoresByProject, order);
    var sorted := Ranking.SortDesc(averaged, AvgScore);
    r := Success(AboveThreshold(sorted));
  }

  // ---------------------------------------------------------------------------------
  // Matching: proofs

  lemma {:induction false} ScoresOfSnoc(rs: seq<Retrieved>, r: Retrieved, user: string, pid: string)
    ensures ScoresOf(rs + [r], user, pid)
         == ScoresOf(rs, user, pid) + (if OwnedBy(r, user) && r.0.projectId == pid then [r.1] else [])
  {
    if rs == [] {
      assert [r][1..] == [];
    } else {
      ConsSplit(rs, [r]);
      ScoresOfSnoc(rs[1..], r, user, pid);
      ConcatAssoc(if OwnedBy(rs[0], user) && rs[0].0.projectId == pid then [rs[0].1] else [],
        ScoresOf(rs[1..], user, pid), if OwnedBy(r, user) && r.0.projectId == pid then [r.1] else []);
    }
  }

  lemma {:induction false} SumSnoc(xs: seq<real>, x: real)
    ensures Sum(xs + [x]) == Sum(xs) + x
  {
    if xs == [] {
      assert [x][1..] == [];
    } else {
      assert (xs + [x])[1..] == xs[1..] + [x];
      SumSnoc(xs[1..], x);
    }
  }

  lemma {:induction false} FirstNameSnoc(rs: seq<Retrieved>, r: Retrieved, user: string, pid: string)
    requires ScoresOf(rs + [r], user, pid) != []
    ensures ScoresOf(rs, user, pid) != [] ==> FirstName(rs + [r], user, pid) == FirstName(rs, user, pid)
    ensures ScoresOf(rs, user, pid) == [] ==> FirstName(rs + [r], user, pid) == r.0.projectName
  {
    ScoresOfSnoc(rs, r, user, pid);
    if rs != [] {
      assert (rs + [r])[0] == rs[0];
      assert (rs + [r])[1..] == rs[1..] + [r];
      if !(OwnedBy(rs[0], user) && rs[0].0.projectId == pid) {
        FirstNameSnoc(rs[1..], r, user, pid);
      }
    }
  }

  /** The loop's map holds, per project of the caller, the sum, count and first name of its chunks. */
  lemma {:induction false} GroupedMeaning(rs: seq<Retrieved>, user: string, pid: string)
    ensures pid in Grouped(rs, user) <==> ScoresOf(rs, user, pid) != []
    ensures pid in Grouped(rs, user) ==>
      && Grouped(rs, user)[pid].total == Sum(ScoresOf(rs, user, pid))
      && Grouped(rs, user)[pid].count == |ScoresOf(rs, user, pid)|
      && Grouped(rs, user)[pid].projectName == FirstName(rs, user, pid)
  {
    if rs != [] {
      var prev, r := rs[..|rs| - 1], rs[|rs| - 1];
      assert rs == prev + [r];
      GroupedMeaning(prev, user, pid);
      ScoresOfSnoc(prev, r, user, pid);
      SumSnoc(ScoresOf(prev, user, pid), r.1);
      if ScoresOf(rs, user, pid) != [] {
        FirstNameSnoc(prev, r, user, pid);
      }
      if OwnedBy(r, user) && r.0.projectId == pid {
        assert ScoresOf(rs, user, pid) == ScoresOf(prev, user, pid) + [r.1];
        if ScoresOf(prev, user, pid) == [] {
          assert ScoresOf(rs, user, pid) == [r.1];
          assert Sum([r.1]) == r.1 + Sum([]);
        }
      } else {
        assert ScoresOf(rs, user, pid) == ScoresOf(prev, user, pid);
      }
    }
  }

  /** The insertion order lists every key of the map exactly once. */
  lemma {:induction false} FirstSeenMeaning(rs: seq<Retrieved>, user: string)
    ensures forall k :: k in FirstSeen(rs, user) <==> k in Grouped(rs, user)
    ensures forall k :: k in Grouped(rs, user) ==> Grouped(rs, user)[k].count > 0
    ensures forall i, j :: 0 <= i < j < |FirstSeen(rs, user)| ==> FirstSeen(rs, user)[i] != FirstSeen(rs, user)[j]
  {
    if rs != [] {
      FirstSeenMeaning(rs[..|rs| - 1], user);
    }
  }

  /** The averaged list has one entry per project of the caller, holding its mean and first name. */
  lemma AveragedMeaning(rs: seq<Retrieved>, user: string)
    ensures Ranking.DistinctBy(Averaged(rs, user), ProjectIdOf)
    ensures forall m :: m in Averaged(rs, user) <==>
      (ScoresOf(rs, user, m.projectId) != []
       && m.avgScore == MeanScore(rs, user, m.projectId)
       && m.projectName == FirstName(rs, user, m.projectId))
  {
    FirstSeenMeaning(rs, user);
    var g, ks := Grouped(rs, user), FirstSeen(rs, user);
    var a := Averaged(rs, user);
    forall m ensures m in a <==>
      (ScoresOf(rs, user, m.projectId) != []
       && m.avgScore == MeanScore(rs, user, m.projectId)
       && m.projectName == FirstName(rs, user, m.projectId))
    {
      GroupedMeaning(rs, user, m.projectId);
      if m in a {
        var i :| 0 <= i < |a| && a[i] == m;
        assert ks[i] == m.projectId;
      }
      if ScoresOf(rs, user, m.projectId) != [] && m.avgScore == MeanScore(rs, user, m.projectId)
         && m.projectName == FirstName(rs, user, m.projectId) {
        var i :| 0 <= i < |ks| && ks[i] == m.projectId;
        assert a[i] == m;
      }
    }
  }

  /**
   * What `matchProjects` returns: sorted by mean score, highest first; at most one
   * entry per project; and exactly the caller's projects whose mean chunk score is
   * strictly above the threshold, each with that mean and the name on its first chunk.
   */
  lemma RankedMeaning(rs: seq<Retrieved>, user: string)
    ensures Ranking.SortedDesc(Ranked(rs, user), AvgScore)
    ensures Ranking.DistinctBy(Ranked(rs, user), ProjectIdOf)
    ensures forall m :: m in Ranked(rs, user) <==>
      (ScoresOf(rs, user, m.projectId) != []
       && m.avgScore == MeanScore(rs, user, m.projectId)
       && m.projectName == FirstName(rs, user, m.projectId)
       && m.avgScore > THRESHOLD)
  {
    AveragedMeaning(rs, user);
    var a := Averaged(rs, user);
    var s := Ranking.SortDesc(a, AvgScore);
    Ranking.SortDescDistinctBy(a, AvgScore, ProjectIdOf);
    AboveThresholdKeeps(s);
    forall m ensures m in s <==> m in a {
      assert m in s <==> m in multiset(s);
      assert m in a <==> m in multiset(a);
    }
  }

  /** RankedMeaning for one candidate entry. */
  lemma RankedMember(rs: seq<Retrieved>, user: string, m: MatchResult)
    ensures m in Ranked(rs, user) <==>
      (ScoresOf(rs, user, m.projectId) != []
       && m.avgScore == MeanScore(rs, user, m.projectId)
       && m.projectName == FirstName(rs, user, m.projectId)
       && m.avgScore > THRESHOLD)
  {
    RankedMeaning(rs, user);
  }

  lemma RankedOrder(rs: seq<Retrieved>, user: string)
    ensures Ranking.SortedDesc(Ranked(rs, user), AvgScore)
    ensures Ranking.DistinctBy(Ranked(rs, user), ProjectIdOf)
  {
    RankedMeaning(rs, user);
  }

  lemma {:induction false} ScoresOfOwnedOnly(rs: seq<Retrieved>, user: string, pid: string)
    ensures ScoresOf(OwnedOnly(rs, user), user, pid) == ScoresOf(rs, user, pid)
  {
    if rs != [] {
      ScoresOfOwnedOnly(rs[1..], user, pid);
      if OwnedBy(rs[0], user) {
        assert OwnedOnly(rs, user) == [rs[0]] + OwnedOnly(rs[1..], user);
        assert ([rs[0]] + OwnedOnly(rs[1..], user))[1..] == OwnedOnly(rs[1..], user);
      } else {
        assert OwnedOnly(rs, user) == OwnedOnly(rs[1..], user);
      }
    }
  }

  lemma {:induction false} FirstNameOwnedOnly(rs: seq<Retrieved>, user: string, pid: string)
    requires ScoresOf(rs, user, pid) != []
    ensures ScoresOf(OwnedOnly(rs, user), user, pid) != []
      && FirstName(OwnedOnly(rs, user), user, pid) == FirstName(rs, user, pid)
  {
    ScoresOfOwnedOnly(rs, user, pid);
    if !(OwnedBy(rs[0], user) && rs[0].0.projectId == pid) {
      FirstNameOwnedOnly(rs[1..], user, pid);
      if OwnedBy(rs[0], user) {
        ConsTail(rs[0], OwnedOnly(rs[1..], user));
      } else {
        assert OwnedOnly(rs, user) == [] + OwnedOnly(rs[1..], user) == OwnedOnly(rs[1..], user);
      }
    } else {
      ConsTail(rs[0], OwnedOnly(rs[1..], user));
    }
  }

  /**
   * Ownership isolation: chunks of other owners, however high they score, change
   * nothing in the result; every reported project has at least one chunk of the caller.
   */
  lemma OwnerIsolation(rs: seq<Retrieved>, user: string)
    ensures forall m :: m in Ranked(rs, user) <==> m in Ranked(OwnedOnly(rs, user), user)
    ensures forall m :: m in Ranked(rs, user) ==>
      exists i :: 0 <= i < |rs| && OwnedBy(rs[i], user) && rs[i].0.projectId == m.projectId
  {
    var o := OwnedOnly(rs, user);
    RankedMeaning(rs, user);
    RankedMeaning(o, user);
    forall m ensures m in Ranked(rs, user) <==> m in Ranked(o, user) {
      ScoresOfOwnedOnly(rs, user, m.projectId);
      if ScoresOf(rs, user, m.projectId) != [] {
        FirstNameOwnedOnly(rs, user, m.projectId);
      }
    }
    forall m | m in Ranked(rs, user)
      ensures exists i :: 0 <= i < |rs| && OwnedBy(rs[i], user) && rs[i].0.projectId == m.projectId
    {
      ScoresWitness(rs, user, m.projectId);
    }
  }

  lemma {:induction false} ScoresWitness(rs: seq<Retrieved>, user: string, pid: string)
    requires ScoresOf(rs, user, pid) != []
    ensures exists i :: 0 <= i < |rs| && OwnedBy(rs[i], user) && rs[i].0.projectId == pid
  {
    if !(OwnedBy(rs[0], user) && rs[0].0.projectId == pid) {
      ScoresWitness(rs[1..], user, pid);
      var i :| 0 <= i < |rs[1..]| && OwnedBy(rs[1..][i], user) && rs[1..][i].0.projectId == pid;
      assert rs[i + 1] == rs[1..][i];
    }
  }

  // ---------------------------------------------------------------------------------
  // Worked cases

  lemma ThreeChunkScores(md: Metadata, pid: string)
    ensures var rs: seq<Retrieved> := [(md, 0.9), (md, 0.9), (md, 0.3)];
      if pid == md.projectId then ScoresOf(rs, md.userEmail, pid) == [0.9, 0.9, 0.3] && MeanScore(rs, md.userEmail, pid) == 0.7
      else ScoresOf(rs, md.userEmail, pid) == []
  {
    var u := md.userEmail;
    var rs: seq<Retrieved> := [(md, 0.9), (md, 0.9), (md, 0.3)];
    assert rs[1..] == [(md, 0.9), (md, 0.3)];
    assert rs[1..][1..] == [(md, 0.3)];
    assert |rs[1..][1..][1..]| == 0;
    if pid == md.projectId {
      assert ScoresOf(rs[1..][1..], u, pid) == [0.3];
      assert ScoresOf(rs[1..], u, pid) == [0.9, 0.3];
      assert Sum([0.9, 0.9, 0.3]) == 2.1 by {
        assert [0.9, 0.9, 0.3][1..] == [0.9, 0.3] && [0.9, 0.3][1..] == [0.3] && |[0.3][1..]| == 0;
      }
    } else {
      assert ScoresOf(rs[1..][1..], u, pid) == [];
      assert ScoresOf(rs[1..], u, pid) == [];
    }
  }

  /** Three chunks of one project scoring 0.9, 0.9 and 0.3 are reported with their mean 0.7, not the maximum. */
  lemma MeanOfThreeChunks(md: Metadata)
    ensures MatchResult(md.projectId, md.projectName, 0.7) in Ranked([(md, 0.9), (md, 0.9), (md, 0.3)], md.userEmail)
    ensures forall m :: m in Ranked([(md, 0.9), (md, 0.9), (md, 0.3)], md.userEmail) ==> m.avgScore == 0.7
  {
    var u := md.userEmail;
    var rs: seq<Retrieved> := [(md, 0.9), (md, 0.9), (md, 0.3)];
    ThreeChunkScores(md, md.projectId);
    RankedMember(rs, u, MatchResult(md.projectId, md.projectName, 0.7));
    forall m | m in Ranked(rs, u) ensures m.avgScore == 0.7 {
      RankedMember(rs, u, m);
      ThreeChunkScores(md, m.projectId);
    }
  }

  /** A project whose mean is exactly the threshold is left out. */
  lemma ThresholdExcluded(md: Metadata)
    ensures Ranked([(md, THRESHOLD)], md.userEmail) == []
  {
    var u := md.userEmail;
    var rs: seq<Retrieved> := [(md, THRESHOLD)];
    if Ranked(rs, u) != [] {
      var m := Ranked(rs, u)[0];
      RankedMember(rs, u, m);
      SingleChunk(md, THRESHOLD, m.projectId);
    }
  }

  /** A project whose mean is just above the threshold is reported. */
  lemma JustAboveThresholdIncluded(md: Metadata, eps: real)
    requires eps > 0.0
    ensures MatchResult(md.projectId, md.projectName, THRESHOLD + eps) in Ranked([(md, THRESHOLD + eps)], md.userEmail)
  {
    SingleChunk(md, THRESHOLD + eps, md.projectId);
    RankedMember([(md, THRESHOLD + eps)], md.userEmail, MatchResult(md.projectId, md.projectName, THRESHOLD + eps));
  }

  /** With one chunk, its project has that chunk's score as its mean and every other project has none. */
  lemma SingleChunk(md: Metadata, score: real, pid: string)
    ensures var rs: seq<Retrieved> := [(md, score)];
            ScoresOf(rs, md.userEmail, pid) == (if pid == md.projectId then [score] else [])
            && (pid == md.projectId ==>
                  MeanScore(rs, md.userEmail, pid) == score && FirstName(rs, md.userEmail, pid) == md.projectName)
  {
    var rs: seq<Retrieved> := [(md, score)];
    var own: seq<real> := if pid == md.projectId then [score] else [];
    assert rs[1..] == [];
    assert ScoresOf(rs, md.userEmail, pid) == own + [];
    assert own + [] == own;
    assert [score][1..] == [];
    assert Sum([score]) == score + 0.0;
  }

  /** Of two reported projects, the one with the higher mean is listed first. */
  lemma HigherMeanFirst(rs: seq<Retrieved>, user: string, i: nat, j: nat)
    requires i < |Ranked(rs, user)| && j < |Ranked(rs, user)|
    requires Ranked(rs, user)[i].avgScore > Ranked(rs, user)[j].avgScore
    ensures i < j
  {
    RankedOrder(rs, user);
  }

  /** Another owner's project is never reported, even when it outscores the caller's. */
  lemma OtherOwnerNeverReported(mine: Metadata, theirs: Metadata)
    requires mine.userEmail != theirs.userEmail
    ensures forall m :: m in Ranked([(theirs, 0.99), (mine, 0.6)], mine.userEmail) ==> m.projectId == mine.projectId
  {
    var rs := [(theirs, 0.99), (mine, 0.6)];
    OwnerIsolation(rs, mine.userEmail);
    forall m | m in Ranked(rs, mine.userEmail) ensures m.projectId == mine.projectId {
      var i :| 0 <= i < |rs| && OwnedBy(rs[i], mine.userEmail) && rs[i].0.projectId == m.projectId;
    }
  }
}
