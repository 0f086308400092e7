/** ESP-relative file names. The ESP is FAT32: case and slash direction do not matter. */
module EspPath {
  import opened Text

  /** The name with every backslash turned into a slash and every letter lower-cased. */
  function Unify(p: string): (r: string)
    ensures |r| == |p|
    ensures forall i :: 0 <= i < |p| ==> r[i] == if p[i] == '\\' then '/' else Lower(p[i])
  {
    seq(|p|, i requires 0 <= i < |p| => if p[i] == '\\' then '/' else Lower(p[i]))
  }

  /** The one spelling under which claims and loaders are compared. */
  function Normalize(p: string): string {
    TrimRightChar(TrimLeftChar(Unify(p), '/'), '/')
  }

  predicate Unified(p: string) {
    forall i :: 0 <= i < |p| ==> p[i] != '\\' && Lower(p[i]) == p[i]
  }

  lemma {:induction false} TrimLeftKeeps(p: string)
    requires Unified(p)
    ensures Unified(TrimLeftChar(p, '/'))
    ensures TrimLeftChar(p, '/') != "" ==> TrimLeftChar(p, '/')[0] != '/'
    ensures p != "" && p[0] != '/' ==> TrimLeftChar(p, '/') == p
  {
    if p != "" && p[0] == '/' {
      TrimLeftKeeps(p[1..]);
    }
  }

  lemma {:induction false} TrimRightKeeps(p: string)
    requires Unified(p)
    ensures var r := TrimRightChar(p, '/');
            Unified(r) && r <= p && (r != "" ==> r[|r| - 1] != '/')
  {
    if p != "" && p[|p| - 1] == '/' {
      TrimRightKeeps(p[..|p| - 1]);
    }
  }

  /** Normalizing twice is normalizing once, so a recorded claim reads back as itself. */
  lemma NormalizeIdempotent(p: string)
    ensures Normalize(Normalize(p)) == Normalize(p)
  {
    var u := Unify(p);
    TrimLeftKeeps(u);
    TrimRightKeeps(TrimLeftChar(u, '/'));
    var n := Normalize(p);
    assert Unify(n) == n;
    TrimLeftKeeps(n);
    assert TrimLeftChar(n, '/') == n;
    assert TrimRightChar(n, '/') == n;
  }
}
