/**
 * Removal of mirrored commits: a target repository's commits minus those whose
 * sha already occurs among the source (canonical) repository's commits.
 */
module Dedup {
  import opened Wrappers
  import opened Seqs
  import opened Events

  /** The shas of a list of commit rows, as a set for membership tests. */
  function ShaSet(commits: seq<Event>): (shas: set<Option<string>>)
    ensures forall c :: c in commits ==> c.sha in shas
    ensures forall h :: h in shas ==> exists c :: c in commits && c.sha == h
  {
    set c | c in commits :: c.sha
  }

  /** Keeps a commit whose sha is not in `shas`. */
  function IsNewCommit(shas: set<Option<string>>): (keep: Event -> bool)
  {
    (c: Event) => c.sha !in shas
  }

  /**
   * The target commits whose sha does not occur among the source commits, in
   * their original order. Every target commit is either kept or has a sha
   * that occurs in the source.
   */
  function FilterDuplicateCommits(sourceCommits: seq<Event>, targetCommits: seq<Event>): (filtered: seq<Event>)
    ensures forall c :: c in filtered ==> c in targetCommits && c.sha !in ShaSet(sourceCommits)
    ensures forall c :: c in targetCommits ==> c in filtered || c.sha in ShaSet(sourceCommits)
    ensures |filtered| <= |targetCommits|
  {
    var sourceShas := ShaSet(sourceCommits);
    Filter(targetCommits, IsNewCommit(sourceShas))
  }

  /**
   * The kept commits are a subsequence of the target, and each target commit
   * is kept with its full multiplicity exactly when its sha is not among the
   * source shas, so the target splits into what is kept and what is mirrored.
   */
  lemma DeduplicationPartitions(sourceCommits: seq<Event>, targetCommits: seq<Event>, c: Event)
    ensures IsSubsequence(FilterDuplicateCommits(sourceCommits, targetCommits), targetCommits)
    ensures multiset(FilterDuplicateCommits(sourceCommits, targetCommits))[c]
            == if c.sha in ShaSet(sourceCommits) then 0 else multiset(targetCommits)[c]
  {
    var keep := IsNewCommit(ShaSet(sourceCommits));
    FilterIsSubsequence(targetCommits, keep);
    FilterCount(targetCommits, keep, c);
  }

  /** Deduplicating a concatenation deduplicates each part. */
  lemma DeduplicationDistributes(sourceCommits: seq<Event>, a: seq<Event>, b: seq<Event>)
    ensures FilterDuplicateCommits(sourceCommits, a + b)
            == FilterDuplicateCommits(sourceCommits, a) + FilterDuplicateCommits(sourceCommits, b)
  {
    FilterAppend(a, b, IsNewCommit(ShaSet(sourceCommits)));
  }

  /**
   * A canonical repository with commits sha1, sha2 and a mirror with commits
   * sha1, sha3: the mirror contributes only its sha3 commit.
   */
  lemma MirrorContributesOnlyNewCommit(canonical1: Event, canonical2: Event, mirror1: Event, mirror3: Event)
    requires mirror1.sha == canonical1.sha
    requires mirror3.sha != canonical1.sha && mirror3.sha != canonical2.sha
    ensures FilterDuplicateCommits([canonical1, canonical2], [mirror1, mirror3]) == [mirror3]
  {
    var shas := ShaSet([canonical1, canonical2]);
    FilterSnoc([mirror1], mirror3, IsNewCommit(shas));
    FilterSnoc([], mirror1, IsNewCommit(shas));
    assert [mirror1] + [mirror3] == [mirror1, mirror3];
  }
}
