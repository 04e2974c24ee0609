/**
 * The file-name rule shared by saving and loading: a name that does not end
 * in ".dat" gets ".dat" appended. The comparison is Java's `endsWith`, an exact,
 * case-sensitive suffix test.
 */
module FileNames {

  const Extension: string := ".dat"

  predicate EndsWithDat(name: string) {
    |name| >= |Extension| && name[|name| - |Extension|..] == Extension
  }

  function Normalize(name: string): (r: string)
    ensures EndsWithDat(r)
    ensures EndsWithDat(name) ==> r == name
    ensures !EndsWithDat(name) ==> r == name + Extension
    ensures name <= r && |r| <= |name| + |Extension|
  {
    if EndsWithDat(name) then name
    else
      assert (name + Extension)[|name|..] == Extension;
      name + Extension
  }

  /** Normalising twice names the same file as normalising once. */
  lemma NormalizeIdempotent(name: string)
    ensures Normalize(Normalize(name)) == Normalize(name)
  {
  }

  /** A bare name and the same name with ".dat" typed out name the same file. */
  lemma SameFileWithOrWithoutExtension(name: string)
    requires !EndsWithDat(name)
    ensures Normalize(name + Extension) == Normalize(name)
  {
  }
}
