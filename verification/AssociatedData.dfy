/** internal/secrets/store.go: the strings that bind a ciphertext to the record it belongs to. */
module AssociatedData {
  import opened Text

  function DekData(version: nat): string {
    "back-orbit/dek/v" + Decimal(version)
  }

  function SecretData(id: string, kind: string, name: string): string {
    "back-orbit/secret/" + (id + "/" + (kind + "/" + name))
  }

  /** A wrapped key of one generation never passes for one of another. */
  lemma DekDataInjective(m: nat, n: nat)
    ensures DekData(m) == DekData(n) ==> m == n
  {
    var prefix := "back-orbit/dek/v";
    if DekData(m) == DekData(n) {
      assert DekData(m)[|prefix|..] == Decimal(m) && DekData(n)[|prefix|..] == Decimal(n);
      DecimalInjective(m, n);
    }
  }

  lemma HeadsAgree(a: string, x: string, b: string, y: string)
    requires '/' !in a && '/' !in b && a + "/" + x == b + "/" + y
    ensures a == b && x == y
  {
    FirstOf(a, '/', x);
    FirstOf(b, '/', y);
    var s, t := a + "/" + x, b + "/" + y;
    assert a == s[..|a|] && b == t[..|b|];
    assert x == s[|a| + 1..] && y == t[|b| + 1..];
  }

  /** Ids and kinds hold no slash, so the three parts can be read back from the string. */
  lemma SecretDataInjective(id: string, kind: string, name: string, id': string, kind': string, name': string)
    requires '/' !in id && '/' !in kind && '/' !in id' && '/' !in kind'
    requires SecretData(id, kind, name) == SecretData(id', kind', name')
    ensures id == id' && kind == kind' && name == name'
  {
    var prefix := "back-orbit/secret/";
    var rest, rest' := id + "/" + (kind + "/" + name), id' + "/" + (kind' + "/" + name');
    assert SecretData(id, kind, name)[|prefix|..] == rest;
    assert SecretData(id', kind', name')[|prefix|..] == rest';
    HeadsAgree(id, kind + "/" + name, id', kind' + "/" + name');
    HeadsAgree(kind, name, kind', name');
  }

  /** A slash in the id could as well stand in the kind: which is why neither may hold one. */
  lemma SlashesAreAmbiguous(id: string, middle: string, kind: string, name: string)
    ensures SecretData(id + "/" + middle, kind, name) == SecretData(id, middle + "/" + kind, name)
  {
    assert id + "/" + middle + "/" + (kind + "/" + name) == id + "/" + (middle + "/" + kind + "/" + name);
  }

  /** A wrapped data key never passes for a secret, nor a secret for a wrapped key. */
  lemma DekAndSecretDataDiffer(version: nat, id: string, kind: string, name: string)
    ensures DekData(version) != SecretData(id, kind, name)
  {
    assert DekData(version)[11] == 'd';
    assert SecretData(id, kind, name)[11] == 's';
  }
}
