/** The output of the alignment primitive (`svn_diff_diff`, `svn_diff_diff3`,
    `svn_diff_diff4`), which is not part of this model: an ordered list of
    ranges over the token sequences of the sources, each tagged with how
    the sources relate over it. A conflict may carry the alignment of its
    own region, used when conflicts are shown resolved. */
module Alignment {

  import opened Wrappers

  /** The range types handed to the output callbacks (`svn_diff_output`). */
  datatype RangeKind = Common | DiffModified | DiffLatest | DiffCommon | Conflict

  /** One range: zero-based, half-open token intervals per source, and
      for a conflict, possibly the alignment of its region. */
  datatype DiffRange = DiffRange(
    kind: RangeKind,
    originalStart: nat, originalLength: nat,
    modifiedStart: nat, modifiedLength: nat,
    latestStart: nat, latestLength: nat,
    resolved: Option<Diff>)

  /** A whole alignment (`svn_diff_t`): its ranges in order. */
  datatype Diff = Diff(ranges: seq<DiffRange>)

  /** `svn_diff_contains_diffs`: some range is not common. */
  predicate ContainsDiffs(diff: seq<DiffRange>) {
    exists i :: 0 <= i < |diff| && diff[i].kind != Common
  }
}
