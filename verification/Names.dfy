/** Trailing dots of domain names. */
module Names {

  predicate Dotted(name: string) {
    name != "" && name[|name| - 1] == '.'
  }

  predicate DoubleDotted(name: string) {
    |name| >= 2 && name[|name| - 1] == '.' && name[|name| - 2] == '.'
  }

  function TrimDot(name: string): string {
    if Dotted(name) then name[..|name| - 1] else name
  }

  function AddDot(name: string): string {
    if Dotted(name) then name else name + "."
  }

  /** What a save and a load do to a name. */
  function Restore(name: string): string {
    AddDot(TrimDot(name))
  }

  /** A dotted name survives a save and a load exactly when it does not end in two dots; otherwise it
      gets shorter. */
  lemma RestoreIff(name: string)
    requires Dotted(name)
    ensures Restore(name) == name <==> !DoubleDotted(name)
    ensures Restore(name) != name ==> |Restore(name)| < |name|
  {
    assert name == name[..|name| - 1] + ".";
  }

  /** A second trim changes nothing under the same condition. */
  lemma TrimTwiceIff(name: string)
    requires Dotted(name)
    ensures TrimDot(TrimDot(name)) == TrimDot(name) <==> !DoubleDotted(name)
  {
  }

  lemma TrimmedToIff(original: string, name: string)
    requires Dotted(original)
    ensures TrimDot(original) == name <==> original == name + "."
  {
    assert original == TrimDot(original) + ".";
    assert (name + ".")[..|name|] == name;
  }

  lemma TrimInjective(a: string, b: string)
    requires Dotted(a) && Dotted(b) && TrimDot(a) == TrimDot(b)
    ensures a == b
  {
    assert a == TrimDot(a) + "." && b == TrimDot(b) + ".";
  }
}
