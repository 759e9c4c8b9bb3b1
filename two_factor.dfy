/** Backup codes of the second factor: generation, verification and use. */
module TwoFactor {
  import opened Common

  /** The characters a backup code is drawn from: capitals and digits
    * without the look-alikes I, O, 0 and 1. */
  const CodeAlphabet: string := "ABCDEFGHJKLMNPQRSTUVWXYZ23456789"
  const CodeLength: nat := 8
  const DefaultCodeCount: int := 10

  /** A stored backup code: only its hash is kept. */
  datatype BackupCode = BackupCode(codeHash: string, used: bool, usedAt: Option<int>)

  /** The hash a code is stored under (SHA-256 in hex). */
  type Hash = string -> string

  /** A code accepts an input iff it is unused and the input hashes to it. */
  predicate VerifyCode(c: BackupCode, input: string, hash: Hash) {
    !c.used && c.codeHash == hash(input)
  }

  /** The number of unused codes. */
  function UnusedCount(codes: seq<BackupCode>): nat
    decreases |codes|
  {
    if codes == [] then 0
    else UnusedCount(codes[..|codes| - 1]) + (if codes[|codes| - 1].used then 0 else 1)
  }

  /** There are never more unused codes than codes, and all of them are
    * unused exactly when none is marked used. */
  lemma {:induction false} UnusedCountBounds(codes: seq<BackupCode>)
    ensures UnusedCount(codes) <= |codes|
    ensures UnusedCount(codes) == |codes| <==> forall i :: 0 <= i < |codes| ==> !codes[i].used
    decreases |codes|
  {
    if codes != [] {
      var front := codes[..|codes| - 1];
      UnusedCountBounds(front);
      assert forall i :: 0 <= i < |front| ==> front[i] == codes[i];
    }
  }

  /** Replacing one code changes the unused count by the difference of the
    * two codes' states alone. */
  lemma {:induction false} UnusedCountUpdate(codes: seq<BackupCode>, i: nat, c: BackupCode)
    requires i < |codes|
    ensures UnusedCount(codes[i := c]) + (if codes[i].used then 0 else 1)
         == UnusedCount(codes) + (if c.used then 0 else 1)
    decreases |codes|
  {
    var n := |codes| - 1;
    if i < n {
      UnusedCountUpdate(codes[..n], i, c);
      assert codes[i := c][..n] == codes[..n][i := c];
    } else {
      assert codes[i := c][..n] == codes[..n];
    }
  }

  /** The `i`-th generated code: eight characters, each chosen by the
    * random source `pick` among the alphabet. */
  function CodeOf(pick: (nat, nat) -> nat, i: nat): string {
    seq(CodeLength, (j: int) requires 0 <= j => CodeAlphabet[pick(i, j) % |CodeAlphabet|])
  }

  /** Every generated code has eight characters, all from the alphabet, and
    * none of them is a look-alike. */
  lemma CodeShape(pick: (nat, nat) -> nat, i: nat)
    ensures |CodeOf(pick, i)| == 8
    ensures forall j :: 0 <= j < 8 ==> CodeOf(pick, i)[j] in CodeAlphabet
    ensures forall j :: 0 <= j < 8 ==> CodeOf(pick, i)[j] !in {'I', 'O', '0', '1'}
  {
    assert |CodeAlphabet| == 32;
    forall j | 0 <= j < 8
      ensures CodeOf(pick, i)[j] !in {'I', 'O', '0', '1'}
    {
      var k := pick(i, j) % 32;
      assert CodeOf(pick, i)[j] == CodeAlphabet[k];
      assert forall m :: 0 <= m < 32 ==> CodeAlphabet[m] !in {'I', 'O', '0', '1'};
    }
  }

  /** The stored rows for freshly generated plaintext codes. */
  function FreshCodes(plain: seq<string>, hash: Hash): seq<BackupCode> {
    seq(|plain|, (i: int) requires 0 <= i < |plain| => BackupCode(hash(plain[i]), false, None))
  }

  /** Every fresh code accepts its own plaintext, and all of them count as
    * unused. */
  lemma FreshCodesVerify(plain: seq<string>, hash: Hash)
    ensures forall i :: 0 <= i < |plain| ==> VerifyCode(FreshCodes(plain, hash)[i], plain[i], hash)
    ensures UnusedCount(FreshCodes(plain, hash)) == |plain|
  {
    UnusedCountBounds(FreshCodes(plain, hash));
  }

  /** A used code accepts no input. */
  lemma UsedCodeRejects(c: BackupCode, input: string, hash: Hash, now: int)
    ensures !VerifyCode(c.(used := true, usedAt := Some(now)), input, hash)
    ensures VerifyCode(c, input, hash) ==> !c.used
  {
  }

  /** The second-factor settings of one user and the backup codes they own. */
  class UserTwoFactor {
    var codes: seq<BackupCode>
    var backupTokensCount: int

    /** The counter the settings keep agrees with the codes. */
    predicate CountAgrees()
      reads this
    {
      backupTokensCount == UnusedCount(codes)
    }

    constructor ()
      ensures codes == [] && backupTokensCount == 0
      ensures CountAgrees()
    {
      codes := [];
      backupTokensCount := 0;
    }

    /** Replace all codes with `count` fresh ones (ten unless asked
      * otherwise) and return their plaintexts; the counter is set to
      * `count` as given. */
    method GenerateBackupCodes(pick: (nat, nat) -> nat, hash: Hash, count: int := DefaultCodeCount) returns (plain: seq<string>)
      modifies this
      ensures |plain| == Max(count, 0)
      ensures forall i :: 0 <= i < |plain| ==> plain[i] == CodeOf(pick, i)
      ensures codes == FreshCodes(plain, hash)
      ensures backupTokensCount == count
    {
      codes := [];
      plain := [];
      var n := 0;
      while n < count
        invariant 0 <= n == |plain| == |codes|
        invariant n <= Max(count, 0)
        invariant forall i :: 0 <= i < n ==> plain[i] == CodeOf(pick, i)
        invariant codes == FreshCodes(plain, hash)
        decreases count - n
      {
        var code := CodeOf(pick, n);
        plain := plain + [code];
        codes := codes + [BackupCode(hash(code), false, None)];
        n := n + 1;
      }
      backupTokensCount := count;
    }

    /** Mark the `i`-th code used at `now` and recount the unused codes. */
    method MarkAsUsed(i: nat, now: int)
      requires i < |codes|
      modifies this
      ensures codes == old(codes)[i := old(codes)[i].(used := true, usedAt := Some(now))]
      ensures backupTokensCount == UnusedCount(codes)
    {
      codes := codes[i := codes[i].(used := true, usedAt := Some(now))];
      backupTokensCount := UnusedCount(codes);
    }
  }

  /** After a generation the counter agrees with the codes exactly when the
    * count asked for is not negative; a negative count leaves no codes but
    * a negative counter. */
  lemma GenerationCountAgrees(count: int, plain: seq<string>, hash: Hash)
    requires |plain| == Max(count, 0)
    ensures count == UnusedCount(FreshCodes(plain, hash)) <==> count >= 0
  {
    FreshCodesVerify(plain, hash);
  }

  /** Using a code lowers the unused count by one when it was unused, and
    * leaves it when it was used already. */
  lemma UseLowersCount(codes: seq<BackupCode>, i: nat, now: int)
    requires i < |codes|
    ensures var after := codes[i := codes[i].(used := true, usedAt := Some(now))];
      UnusedCount(after) == if codes[i].used then UnusedCount(codes) else UnusedCount(codes) - 1
  {
    UnusedCountUpdate(codes, i, codes[i].(used := true, usedAt := Some(now)));
  }
}
