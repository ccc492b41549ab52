/** Where found itemsets go (src/mining/core/result_writer.rs, src/mining/core/context.rs). */
module Output {
  import opened Huim
  import opened PageLayout

  /** Whether each line, in the order of writing, reaches the output. */
  type Device = nat -> bool

  /** How many of the first n lines do not. */
  ghost function LostLines(device: Device, n: nat): nat {
    if n == 0 then 0 else LostLines(device, n - 1) + if device(n - 1) then 0 else 1
  }

  lemma {:induction false} NothingLost(device: Device, n: nat)
    ensures LostLines(device, n) == 0 <==> forall k | 0 <= k < n :: device(k)
  {
    if n > 0 {
      NothingLost(device, n - 1);
      assert device(n - 1) || exists k | 0 <= k < n :: !device(k);
    }
  }

  class ResultWriter {
    var huis: seq<Hui>
    const device: Device
    var lines: nat

    constructor (device: Device)
      ensures huis == [] && this.device == device && lines == 0
    {
      this.device := device;
      huis := [];
      lines := 0;
    }

    /** Lines that could not be written. Engines that ignore write errors go on regardless. */
    ghost function Lost(): nat
      reads this`lines
    {
      LostLines(device, lines)
    }

    /** One line of output, or a disk error. */
    method WriteHui(itemset: seq<ItemId>, utility: int) returns (r: Result<()>)
      modifies this
      ensures lines == old(lines) + 1
      ensures r == if device(old(lines)) then Ok(()) else Err(Io)
      ensures huis == if r.Ok? then old(huis) + [Hui(itemset, utility)] else old(huis)
      ensures Lost() == old(Lost()) + if r.Ok? then 0 else 1
    {
      var reached := device(lines);
      lines := lines + 1;
      if !reached { return Err(Io); }
      huis := huis + [Hui(itemset, utility)];
      r := Ok(());
    }
  }
}
