/** Where a VM's own files live on the host: vm_files/vm_<id>/<name>. For the names a guest may use
    these paths are different for different VMs and different names. */
module Names {
  import opened Protocol
  import opened PrivateFiles

  const SLASH: Byte := 47

  /** Decimal digits, as std::to_string writes them. */
  function Decimal(n: nat): (s: Bytes)
    ensures s != []
    ensures forall k :: 0 <= k < |s| ==> IsDigit(s[k])
  {
    if n < 10 then [48 + n] else Decimal(n / 10) + [48 + n % 10]
  }

  function Value(s: Bytes): int {
    if s == [] then 0 else 10 * Value(s[..|s| - 1]) + (s[|s| - 1] as int) - 48
  }

  lemma {:induction false} DecimalReadsBack(n: nat)
    ensures Value(Decimal(n)) == n
  {
    var s := Decimal(n);
    if n < 10 {
      assert s[..0] == [];
    } else {
      DecimalReadsBack(n / 10);
      assert s[..|s| - 1] == Decimal(n / 10);
    }
  }

  /** `prefix` is the constant "vm_files/vm_". */
  function LocalPath(prefix: Bytes, id: nat, name: Name): Bytes {
    prefix + Decimal(id) + [SLASH] + name
  }

  /** No two (VM, name) pairs share a local path. */
  lemma LocalPathInjective(prefix: Bytes, id: nat, name: Name, id': nat, name': Name)
    requires ValidName(name) && ValidName(name')
    requires LocalPath(prefix, id, name) == LocalPath(prefix, id', name')
    ensures id == id' && name == name'
  {
    var d, d' := Decimal(id), Decimal(id');
    var p := LocalPath(prefix, id, name);
    var rest, rest' := d + [SLASH] + name, d' + [SLASH] + name';
    assert p[|prefix|..] == rest && LocalPath(prefix, id', name')[|prefix|..] == rest';
    assert rest == rest';
    FirstSlash(d, name);
    FirstSlash(d', name');
    assert |d| == |d'|;
    assert d == rest[..|d|] == rest'[..|d'|] == d';
    assert name == rest[|d| + 1..] == rest'[|d'| + 1..] == name';
    DecimalReadsBack(id);
    DecimalReadsBack(id');
  }

  lemma FirstSlash(d: Bytes, name: Name)
    ensures (d + [SLASH] + name)[|d|] == SLASH
  {
  }
}
