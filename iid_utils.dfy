/**
 * IID parsing (utils/iid_utils.py): a chain of ordered checks that splits a
 * list of components into structure, object and indexes, raising
 * InvalidIIDError at the first check that fails.
 */
module IidUtils {
  import opened Wrappers
  import opened Exceptions

  /** One element of the list handed to `parse_iid`: a Python int, or any other value. */
  datatype Component = Int(n: int) | NonInt

  /** The record `parse_iid` returns. */
  datatype Iid = Iid(structure: int, obj: int, indexes: seq<int>)

  const LengthMessage: string := "IID must contain between 2 and 4 integers."
  const TypeMessage: string := "All IID parts must be integers."
  const StructureMessage: string := "Structure ID must be a positive integer."
  const ObjectMessage: string := "Object ID must be 0 or positive."

  predicate AllInts(iid: seq<Component>)
  {
    forall i :: 0 <= i < |iid| ==> iid[i].Int?
  }

  /** The integers of a list whose every component is an int. */
  function Ints(iid: seq<Component>): (r: seq<int>)
    requires AllInts(iid)
    ensures |r| == |iid|
    ensures forall i :: 0 <= i < |iid| ==> iid[i] == Int(r[i])
  {
    if iid == [] then [] else [iid[0].n] + Ints(iid[1..])
  }

  /** The list of components an IID record stands for. */
  function Components(x: Iid): (r: seq<Component>)
    ensures |r| == 2 + |x.indexes|
    ensures AllInts(r)
  {
    [Int(x.structure), Int(x.obj)] + seq(|x.indexes|, i requires 0 <= i < |x.indexes| => Int(x.indexes[i]))
  }

  /** The records `parse_iid` can return: an IID as the L-SNMPvS protocol shapes it. */
  predicate WellFormed(x: Iid)
  {
    x.structure > 0 && x.obj >= 0 && |x.indexes| <= 2
  }

  /** `parse_iid`: the length check, then the type check, then structure, then object. */
  function ParseIid(iid: seq<Component>): (r: Result<Iid, Error>)
    ensures r.Err? ==> r.error.kind == InvalidIIDError && MapExceptionToCode(r.error.kind) == 5
    ensures !(2 <= |iid| <= 4) ==> r == Err(Error(InvalidIIDError, LengthMessage))
    ensures 2 <= |iid| <= 4 && !AllInts(iid) ==> r == Err(Error(InvalidIIDError, TypeMessage))
    ensures 2 <= |iid| <= 4 && AllInts(iid) && iid[0].n <= 0 ==> r == Err(Error(InvalidIIDError, StructureMessage))
    ensures 2 <= |iid| <= 4 && AllInts(iid) && iid[0].n > 0 && iid[1].n < 0 ==> r == Err(Error(InvalidIIDError, ObjectMessage))
    ensures r.Ok? ==> WellFormed(r.value) && Components(r.value) == iid
  {
    if !(2 <= |iid| <= 4) then Err(Error(InvalidIIDError, LengthMessage))
    else if !AllInts(iid) then Err(Error(InvalidIIDError, TypeMessage))
    else
      var values := Ints(iid);
      var structure := values[0];
      if structure <= 0 then Err(Error(InvalidIIDError, StructureMessage))
      else
        var obj := values[1];
        if obj < 0 then Err(Error(InvalidIIDError, ObjectMessage))
        else
          var r := Iid(structure, obj, values[2..]);
          assert Components(r) == iid;
          Ok(r)
  }

  /** Every well-formed record, written out as components, parses back to itself;
      in particular index values are never checked. */
  lemma ParseComponents(x: Iid)
    requires WellFormed(x)
    ensures ParseIid(Components(x)) == Ok(x)
  {
    var c := Components(x);
    assert Ints(c) == [x.structure, x.obj] + x.indexes;
  }

  /** Parsing succeeds exactly on the lists that are the components of a well-formed record. */
  lemma ParseSucceedsIff(iid: seq<Component>)
    ensures ParseIid(iid).Ok? <==> exists x :: WellFormed(x) && Components(x) == iid
  {
    if x :| WellFormed(x) && Components(x) == iid {
      ParseComponents(x);
    }
  }

  /** Every failure is reported with InvalidIIDError, whose wire code is 5. */
  lemma FailuresCarryCodeFive(iid: seq<Component>)
    requires ParseIid(iid).Err?
    ensures MapExceptionToCode(ParseIid(iid).error.kind) == 5
  {
  }
}
