/**
 * The dual-path validator: compares the node path with the cluster path by
 * length, and checks whether two paths share an element.
 */
module DualPathValidation {
  import opened Common

  const NoPaths := "INVALID: No paths provided"
  const Consensus := "VALID: Dual path consensus established"
  const ClusterExceeds := "WARNING: Cluster path exceeds node path"

  datatype DualPathValidator = DualPathValidator
  {
    /**
     * `validate`: the INVALID message when both paths are empty; otherwise
     * VALID when the node path is at least as long as the cluster path, and
     * WARNING when it is shorter. It always succeeds.
     */
    function Validate(nodePath: seq<string>, clusterPath: seq<string>): (r: Result<string>)
      ensures r.Ok?
      ensures r.value == NoPaths <==> |nodePath| == 0 && |clusterPath| == 0
      ensures r.value == Consensus <==> (|nodePath| > 0 || |clusterPath| > 0) && |nodePath| >= |clusterPath|
      ensures r.value == ClusterExceeds <==> |nodePath| < |clusterPath|
    {
      if |nodePath| == 0 && |clusterPath| == 0 then Ok(NoPaths)
      else if |nodePath| >= |clusterPath| then Ok(Consensus)
      else Ok(ClusterExceeds)
    }

    /**
     * `cross_validate`: false when either path is empty; otherwise whether
     * the sets of their elements intersect.
     */
    function CrossValidate(path1: seq<string>, path2: seq<string>): (b: bool)
      ensures b <==> exists i, j :: 0 <= i < |path1| && 0 <= j < |path2| && path1[i] == path2[j]
    {
      if |path1| == 0 || |path2| == 0 then false
      else
        var set1 := set x | x in path1;
        var set2 := set x | x in path2;
        var shared := set1 * set2 != {};
        assert shared ==> exists i, j :: 0 <= i < |path1| && 0 <= j < |path2| && path1[i] == path2[j] by {
          if shared {
            var x :| x in set1 * set2;
            var i :| 0 <= i < |path1| && path1[i] == x;
            var j :| 0 <= j < |path2| && path2[j] == x;
          }
        }
        assert (exists i, j :: 0 <= i < |path1| && 0 <= j < |path2| && path1[i] == path2[j]) ==> shared by {
          if exists i, j :: 0 <= i < |path1| && 0 <= j < |path2| && path1[i] == path2[j] {
            var i, j :| 0 <= i < |path1| && 0 <= j < |path2| && path1[i] == path2[j];
            assert path1[i] in set1 * set2;
          }
        }
        shared
    }
  }

  /** `validate` looks only at the two lengths. */
  lemma ValidateDependsOnLengths(v: DualPathValidator, a: seq<string>, b: seq<string>, c: seq<string>, d: seq<string>)
    requires |a| == |c| && |b| == |d|
    ensures v.Validate(a, b) == v.Validate(c, d)
  {
  }

  /** The three messages are distinct, so the verdicts are told apart by their text. */
  lemma MessagesDiffer()
    ensures NoPaths != Consensus && NoPaths != ClusterExceeds && Consensus != ClusterExceeds
  {
    assert NoPaths[0] == 'I' && Consensus[0] == 'V' && ClusterExceeds[0] == 'W';
  }

  /** `cross_validate` does not depend on the order of its arguments. */
  lemma CrossValidateSymmetric(v: DualPathValidator, p: seq<string>, q: seq<string>)
    ensures v.CrossValidate(p, q) == v.CrossValidate(q, p)
  {
    if v.CrossValidate(p, q) {
      var i, j :| 0 <= i < |p| && 0 <= j < |q| && p[i] == q[j];
      assert q[j] == p[i];
    }
  }

  /** A path shares an element with itself exactly when it is not empty. */
  lemma CrossValidateSelf(v: DualPathValidator, p: seq<string>)
    ensures v.CrossValidate(p, p) <==> |p| > 0
  {
    if |p| > 0 {
      assert p[0] == p[0];
    }
  }
}
