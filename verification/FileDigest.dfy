/** Reading a measured file in windows, and digesting it. */
module FileDigest {
  import opened Wrappers
  import opened Sha256Standard
  import opened Sha256Streaming

  datatype Failure = NotAFile | FileTooLarge | FileChanged

  datatype Info = Info(regular: bool, device: nat, identity: nat, size: nat, modified: nat, changed: nat)

  /** An open file: what is measured before and after the reads, and the bytes they meet. */
  datatype Open = Open(before: Info, after: Info, content: seq<Byte>)

  const WINDOW := 65536

  /** How many bytes one `pread` gives, when there are any: at least one, and no more than were asked for. */
  type Supply = (nat, nat) -> nat

  function Given(file: Open, supply: Supply, at: nat, want: nat): (n: nat)
    requires want > 0
    ensures at + n <= |file.content| || n == 0
    ensures n <= want && (n == 0 <==> at >= |file.content|)
  {
    var left := if at < |file.content| then |file.content| - at else 0;
    var most := if want < left then want else left;
    if most == 0 then 0 else if 1 <= supply(at, want) <= most then supply(at, want) else most
  }

  /** `openWindow`. */
  function Measured(file: Open, budget: nat): Result<Info, Failure> {
    if !file.before.regular then Err(NotAFile)
    else if file.before.size > budget then Err(FileTooLarge)
    else Ok(file.before)
  }

  /** `readAt`: short reads are taken up again until the amount is read or the file ends. */
  method ReadAt(file: Open, supply: Supply, amount: nat, at: nat) returns (out: seq<Byte>)
    ensures at + amount <= |file.content| ==> out == file.content[at..at + amount]
    ensures amount > 0 && at + amount > |file.content| ==> |out| < amount
    ensures amount > 0 ==> (out == [] <==> at >= |file.content|)
  {
    out := [];
    while |out| < amount
      invariant |out| <= amount && (|out| == 0 || at + |out| <= |file.content|)
      invariant at + |out| <= |file.content| ==> out == file.content[at..at + |out|]
      decreases amount - |out|
    {
      var want := if amount - |out| < WINDOW then amount - |out| else WINDOW;
      var here := at + |out|;
      var n := Given(file, supply, here, want);
      if n == 0 { return; }
      assert file.content[at..here + n] == file.content[at..here] + file.content[here..here + n];
      out := out + file.content[here..here + n];
    }
  }

  /** `closeWindow`: nothing lies behind the measured size, and the file still is what it was. */
  method CloseWindow(file: Open, supply: Supply) returns (same: bool)
    ensures same <==> |file.content| <= file.before.size && file.before == file.after
  {
    var extra := ReadAt(file, supply, 1, file.before.size);
    same := |extra| == 0 && file.before == file.after;
  }

  /**
   * `digestFile`: whatever each read gives, the answer is the digest of the whole content, and it is given exactly
   * when the content is as long as was measured and the file is the same afterwards.
   */
  method DigestFile(file: Open, supply: Supply, budget: nat) returns (r: Result<seq<Byte>, Failure>)
    ensures Measured(file, budget).Err? ==> r == Err(Measured(file, budget).error)
    ensures Measured(file, budget).Ok? ==>
      r == if |file.content| == file.before.size && file.before == file.after then Ok(Digest(file.content))
        else Err(FileChanged)
  {
    var before := Measured(file, budget);
    if before.Err? { return Err(before.error); }
    var hash := new Sha256();
    var at := 0;
    while at < before.value.size
      invariant 0 <= at <= before.value.size && at <= |file.content|
      invariant hash.Valid() && fresh(hash) && fresh(hash.state) && fresh(hash.pending)
      invariant hash.message == file.content[..at]
    {
      var amount := if WINDOW < before.value.size - at then WINDOW else before.value.size - at;
      var window := ReadAt(file, supply, amount, at);
      if |window| != amount { return Err(FileChanged); }
      assert file.content[..at + amount] == file.content[..at] + file.content[at..at + amount];
      hash.Update(window);
      at := at + amount;
    }
    var out := hash.Finish();
    var same := CloseWindow(file, supply);
    if !same { return Err(FileChanged); }
    assert file.content[..at] == file.content;
    r := Ok(out);
  }
}
