/** Vocabulary shared by the whole attendance model. */
module Base {

  datatype Option<+T> = None | Some(value: T)

  /** A face embedding from the recognition library. The model never looks
      inside one: it is stored, loaded and handed back unchanged. */
  datatype Encoding = Encoding(components: seq<real>)

  /** The index Python's `flags.index(True)` returns once `True in flags`
      holds, and None when no flag is true. */
  function FirstTrue(flags: seq<bool>): (r: Option<nat>)
    ensures r.None? <==> forall i :: 0 <= i < |flags| ==> !flags[i]
    ensures r.Some? ==> r.value < |flags| && flags[r.value]
    ensures r.Some? ==> forall j :: 0 <= j < r.value ==> !flags[j]
  {
    if flags == [] then None
    else if flags[0] then Some(0)
    else match FirstTrue(flags[1..])
      case None => None
      case Some(k) => Some(k + 1)
  }

  /** Growing a prefix by one element. */
  lemma PrefixStep<T>(s: seq<T>, i: nat)
    requires i < |s|
    ensures s[..i + 1] == s[..i] + [s[i]]
  {
  }
}
