/** The short name of a class: its name without the package. The class object is given by its name. */
module ClassUtils {
  import opened JavaStrings

  /** getShortName: the text after the last '.', or the whole name when it has none. */
  function GetShortName(name: string): (r: string)
    ensures '.' !in r
    ensures EndsWith(name, r)
    ensures '.' !in name ==> r == name
    ensures '.' in name ==> name == name[..|name| - |r| - 1] + "." + r
  {
    name[LastIndexOfChar(name, '.') + 1..]
  }

  /** The short name is the part after the package, for any package that ends in a dot. */
  lemma ShortNameOfQualifiedName(package: string, simple: string)
    requires '.' !in simple
    ensures GetShortName(package + "." + simple) == simple
  {
    var name := package + "." + simple;
    assert name[|package|] == '.';
    assert name[|package| + 1..] == simple;
  }

  /** Taking the short name twice changes nothing. */
  lemma ShortNameIdempotent(name: string)
    ensures GetShortName(GetShortName(name)) == GetShortName(name)
  {
  }
}
