/**
 * The random password generators of the admin model, the admin page and the
 * OTA updater.  Each draws one random word per character and picks
 * `alphabet[word % |alphabet|]`; the random words (`esp_random()`) are an
 * input sequence here.
 */
module Passwords {
  import opened Machine
  import opened JsonDoc

  /** `AdminModel::generatePassword` and `AdminPage::_generatePassword`: no O, I, l, 0 or 1. */
  const AdminAlphabet: string := "ABCDEFGHJKLM" + "NPQRSTUVWXYZ" + "abcdefghjkm" + "npqrstuvwxyz" + "23456789"

  /** `OtaUpdate::_generatePassword`: lower-case i and o are kept, four symbols are added. */
  const OtaAlphabet: string :=
    "ABCDEFGHJKLM" + "NPQRSTUVWXYZ" + "abcdefghijkm" + "nopqrstuvwxyz" + "23456789" + "!-_@"

  /** Not a NUL, and not one of O, I, l, 0 and 1, which a reader confuses with one another. */
  predicate Legible(c: char) {
    c != '\0' && c != 'O' && c != 'I' && c != 'l' && c != '0' && c != '1'
  }

  predicate AllLegible(s: string) {
    forall i :: 0 <= i < |s| ==> Legible(s[i])
  }

  /** The password the random words `rnd` select, one character per word. */
  function Drawn(alphabet: string, rnd: seq<Nat32>): string
    requires |alphabet| > 0
  {
    seq(|rnd|, i requires 0 <= i < |rnd| => alphabet[rnd[i] % |alphabet|])
  }

  /** The generator loop: `len` words are consumed, in order. */
  method GeneratePassword(alphabet: string, len: nat, rnd: seq<Nat32>) returns (out: string)
    requires |alphabet| > 0 && len <= |rnd|
    ensures out == Drawn(alphabet, rnd[..len])
  {
    out := "";
    var i := 0;
    while i < len
      invariant i <= len
      invariant out == Drawn(alphabet, rnd[..i])
    {
      out := out + [alphabet[rnd[i] % |alphabet|]];
      i := i + 1;
    }
  }

  /** A drawn password has one character per word, each from the alphabet. */
  lemma DrawnFromAlphabet(alphabet: string, rnd: seq<Nat32>)
    requires |alphabet| > 0
    ensures |Drawn(alphabet, rnd)| == |rnd|
    ensures forall i :: 0 <= i < |rnd| ==> Drawn(alphabet, rnd)[i] in alphabet
  {
  }

  /** Neither alphabet holds an ambiguous character (checked piece by piece). */
  lemma AlphabetsUnambiguous()
    ensures AllLegible(AdminAlphabet) && AllLegible(OtaAlphabet)
  {
    assert AllLegible("ABCDEFGHJKLM");
    assert AllLegible("NPQRSTUVWXYZ");
    assert AllLegible("abcdefghjkm");
    assert AllLegible("abcdefghijkm");
    assert AllLegible("npqrstuvwxyz");
    assert AllLegible("nopqrstuvwxyz");
    assert AllLegible("23456789");
    assert AllLegible("!-_@");
  }

  /** So no generated password holds an ambiguous character, nor a NUL: it is stored whole. */
  lemma DrawnLegible(alphabet: string, rnd: seq<Nat32>)
    requires |alphabet| > 0 && AllLegible(alphabet)
    ensures AllLegible(Drawn(alphabet, rnd))
    ensures PlainText(Drawn(alphabet, rnd))
  {
  }
}
