/**
 * Facts about the shipped catalogue's identifier table: its keys, how many there are, and
 * which record each resolves to.
 *
 * The three shipped identifiers are all digits: `"000"` followed by a trazabilidad code that
 * does not start with `'0'`. For such an identifier the upper-case variant is the identifier
 * itself and the other three variants are pairwise different, so each record contributes
 * four distinct keys.
 */
module EpcCatalogue {
  import opened Strings
  import opened Epc

  /** `rfid` is all digits, starts with exactly three `'0'`s and has something after them. */
  predicate PaddedDigits(rfid: string)
  {
    |rfid| > 3 && rfid[..3] == "000" && rfid[3] != '0' && forall i :: 0 <= i < |rfid| ==> IsDigit(rfid[i])
  }

  /** The four keys of a padded all-digit identifier. */
  function PaddedKeys(rfid: string): set<string>
    requires |rfid| > 3
  {
    {rfid, rfid[3..], rfid[2..], "E2" + rfid}
  }

  lemma {:induction false} StripZerosPrefix(z: string, tail: string)
    requires forall i :: 0 <= i < |z| ==> z[i] == '0'
    requires tail == [] || tail[0] != '0'
    ensures StripLeadingZeros(z + tail) == tail
    decreases |z|
  {
    if |z| > 0 {
      assert (z + tail)[1..] == z[1..] + tail;
      StripZerosPrefix(z[1..], tail);
    } else {
      assert z + tail == tail;
    }
  }

  /** The five variants of a padded all-digit identifier collapse to its four keys. */
  lemma PaddedVariants(rfid: string, k: string)
    requires PaddedDigits(rfid)
    ensures k in Variants(rfid) <==> k in PaddedKeys(rfid)
  {
    assert rfid == rfid[..3] + rfid[3..];
    StripZerosPrefix(rfid[..3], rfid[3..]);
    assert StartsWith(rfid, "00");
    ToUpperNoLower(rfid);
  }

  lemma PaddedKeysCount(rfid: string)
    requires PaddedDigits(rfid)
    ensures |PaddedKeys(rfid)| == 4
  {
    assert rfid[0] == '0' && rfid[2..][0] == '0' && rfid[3..][0] != '0' && ("E2" + rfid)[0] == 'E';
    assert |rfid[2..]| == |rfid| - 2 && |rfid[3..]| == |rfid| - 3;
  }

  /** Different padded identifiers share no key. */
  lemma PaddedKeysDisjoint(ra: string, rb: string)
    requires PaddedDigits(ra) && PaddedDigits(rb) && ra != rb
    ensures PaddedKeys(ra) !! PaddedKeys(rb)
  {
    assert ra == ra[..3] + ra[3..] && rb == rb[..3] + rb[3..];
    assert ra[2..] == ra[2..3] + ra[3..] && rb[2..] == rb[2..3] + rb[3..];
    assert ("E2" + ra)[2..] == ra && ("E2" + rb)[2..] == rb;
    assert ra[0] == '0' && rb[0] == '0' && ra[2..][0] == '0' && rb[2..][0] == '0';
    assert IsDigit(ra[3]) && IsDigit(rb[3]);
    assert ra[3..][0] != '0' && rb[3..][0] != '0' && ra[3..][0] != 'E' && rb[3..][0] != 'E';
    assert ra[1] == ra[..3][1] && rb[1] == rb[..3][1];
    assert ra[1..][0] == '0' && rb[1..][0] == '0';
    assert ("E2" + ra)[0] == 'E' && ("E2" + rb)[0] == 'E';
    assert |ra[2..]| == |ra| - 2 && |rb[2..]| == |rb| - 2;
    assert |ra[3..]| == |ra| - 3 && |rb[3..]| == |rb| - 3;
  }

  lemma ThreeRecordKeysAt(c: seq<Record>, k: string)
    requires |c| == 3 && PaddedDigits(c[0].rfid) && PaddedDigits(c[1].rfid) && PaddedDigits(c[2].rfid)
    ensures k in TableOf(c) <==> k in PaddedKeys(c[0].rfid) || k in PaddedKeys(c[1].rfid) || k in PaddedKeys(c[2].rfid)
  {
    TableKeys(c, k);
    PaddedVariants(c[0].rfid, k);
    PaddedVariants(c[1].rfid, k);
    PaddedVariants(c[2].rfid, k);
    if k in TableOf(c) {
      var i :| 0 <= i < |c| && k in Variants(c[i].rfid);
      assert i == 0 || i == 1 || i == 2;
    }
  }

  /** Three padded identifiers: the table's keys are the union of their four keys each. */
  lemma ThreeRecordKeys(c: seq<Record>)
    requires |c| == 3 && PaddedDigits(c[0].rfid) && PaddedDigits(c[1].rfid) && PaddedDigits(c[2].rfid)
    ensures TableOf(c).Keys == PaddedKeys(c[0].rfid) + PaddedKeys(c[1].rfid) + PaddedKeys(c[2].rfid)
  {
    forall k
      ensures k in TableOf(c) <==> k in PaddedKeys(c[0].rfid) + PaddedKeys(c[1].rfid) + PaddedKeys(c[2].rfid)
    {
      ThreeRecordKeysAt(c, k);
    }
    KeysAre(TableOf(c), PaddedKeys(c[0].rfid) + PaddedKeys(c[1].rfid) + PaddedKeys(c[2].rfid));
  }

  lemma KeysAre(m: map<string, Record>, s: set<string>)
    requires forall k :: k in m <==> k in s
    ensures m.Keys == s
  {
  }

  /** With distinct identifiers, every key of a three-record catalogue resolves to the record it derives from. */
  lemma ThreeRecordOwners(c: seq<Record>, i: nat, k: string)
    requires |c| == 3 && PaddedDigits(c[0].rfid) && PaddedDigits(c[1].rfid) && PaddedDigits(c[2].rfid)
    requires c[0].rfid != c[1].rfid && c[0].rfid != c[2].rfid && c[1].rfid != c[2].rfid
    requires i < 3 && k in PaddedKeys(c[i].rfid)
    ensures k in TableOf(c) && TableOf(c)[k] == c[i]
  {
    PaddedVariants(c[i].rfid, k);
    forall j | i < j < 3
      ensures k !in Variants(c[j].rfid)
    {
      PaddedVariants(c[j].rfid, k);
      PaddedKeysDisjoint(c[i].rfid, c[j].rfid);
    }
    TableLastWriterWins(c, i, k);
  }

  /** The shipped identifiers are padded all-digit strings, pairwise different. */
  lemma SeedPadded(c: seq<Record>)
    requires c == Seed
    ensures |c| == 3 && PaddedDigits(c[0].rfid) && PaddedDigits(c[1].rfid) && PaddedDigits(c[2].rfid)
    ensures c[0].rfid != c[1].rfid && c[0].rfid != c[2].rfid && c[1].rfid != c[2].rfid
  {
    assert |c[1].rfid| != |c[2].rfid|;
    assert c[0].rfid[15] != c[1].rfid[15];
  }

  /*
   * The seed lemmas take the catalogue as a parameter pinned by `requires`, which keeps the
   * verifier from evaluating the table on the literal catalogue.
   */

  /** The shipped table's keys: four per record. */
  lemma SeedKeys(c: seq<Record>)
    requires c == Seed
    ensures TableOf(c).Keys == PaddedKeys(c[0].rfid) + PaddedKeys(c[1].rfid) + PaddedKeys(c[2].rfid)
  {
    SeedPadded(c);
    ThreeRecordKeys(c);
  }

  /** The shipped table holds exactly 12 distinct keys. */
  lemma SeedKeyCount(c: seq<Record>)
    requires c == Seed
    ensures |TableOf(c).Keys| == 12
  {
    SeedKeys(c);
    SeedPadded(c);
    var ka, kb, kc := PaddedKeys(c[0].rfid), PaddedKeys(c[1].rfid), PaddedKeys(c[2].rfid);
    PaddedKeysCount(c[0].rfid);
    PaddedKeysCount(c[1].rfid);
    PaddedKeysCount(c[2].rfid);
    PaddedKeysDisjoint(c[0].rfid, c[1].rfid);
    PaddedKeysDisjoint(c[0].rfid, c[2].rfid);
    PaddedKeysDisjoint(c[1].rfid, c[2].rfid);
    assert |ka + kb| == 8;
    assert (ka + kb) !! kc;
  }

  /** Every key of a shipped record, its own `rfid` first among them, resolves to that record. */
  lemma SeedOwners(c: seq<Record>, i: nat, k: string)
    requires c == Seed && i < |c|
    requires k in PaddedKeys(c[i].rfid)
    ensures k in TableOf(c) && TableOf(c)[k] == c[i]
  {
    SeedPadded(c);
    ThreeRecordOwners(c, i, k);
  }
}
