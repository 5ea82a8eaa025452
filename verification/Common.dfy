/** Identifiers and small datatypes shared by all parts of the model. UUIDs are opaque: only their
    equality matters. */
module Common {
  datatype UserId = UserId(id: nat)
  datatype ProjectId = ProjectId(id: nat)
  datatype TaskId = TaskId(id: nat)
  datatype LabelId = LabelId(id: nat)
  datatype AttachmentId = AttachmentId(id: nat)

  datatype Option<+T> = None | Some(value: T)
  {
    function GetOr(default: T): T {
      if Some? then value else default
    }
  }

  datatype Result<+T, +E> = Success(value: T) | Failure(error: E)

  ghost predicate Distinct<T>(s: seq<T>) {
    forall i, j :: 0 <= i < j < |s| ==> s[i] != s[j]
  }

  ghost function Elements<T>(s: seq<T>): set<T> {
    set x | x in s
  }

  lemma {:induction false} DistinctSize<T>(s: seq<T>)
    requires Distinct(s)
    ensures |s| == |Elements(s)|
    decreases |s|
  {
    if s == [] {
      assert Elements(s) == {};
    } else {
      var init, last := s[..|s| - 1], s[|s| - 1];
      DistinctSize(init);
      assert s == init + [last];
      assert Elements(s) == Elements(init) + {last};
    }
  }
}
