/** Pausing and resuming the encoder: the time spent in pauses is added up and subtracted from the
    time stamps of the buffers that are let through. */
module PauseClock {
  import opened Common

  /** The fields of the element. `paused` is the running time of the pause; 0 means none. */
  datatype Clock = Clock(paused: Word, total: Word, pause: bool, block: bool)

  function Initial(): Clock {
    Clock(0, 0, false, false)
  }

  function Minus(a: int, b: int): Word {
    (a - b) % U64
  }

  /** `gst_encode_bin_pause (TRUE)`: blocking comes first, and a pause that is already running keeps
      its time. `now` is the running time, if there is a clock; `ok` is what blocking returns. */
  function PauseOn(c: Clock, now: Option<Word>, ok: bool): (Clock, bool) {
    if !ok then (c, false)
    else if c.paused != 0 then (c.(pause := true, block := true), true)
    else
      match now
      case Some(t) => (c.(paused := t, pause := true, block := true), true)
      case None => (Clock(0, 0, true, true), true)
  }

  /** `gst_encode_bin_pause (FALSE)`: the gap is closed first, and stays closed if unblocking fails. */
  function PauseOff(c: Clock, now: Option<Word>, ok: bool): (Clock, bool) {
    var d := if c.paused == 0 then c
             else match now
                  case Some(t) => c.(total := (c.total + Minus(t, c.paused)) % U64, paused := 0)
                  case None => c.(total := 0, paused := 0);
    if ok then (d.(pause := false, block := false), true) else (d, false)
  }

  /** The pause property: a value it has already is not set again. */
  function SetPause(c: Clock, value: bool, now: Option<Word>, ok: bool): Clock {
    if c.pause == value then c
    else if value then PauseOn(c, now, ok).0
    else PauseOff(c, now, ok).0
  }

  /** READY to PAUSED */
  function Reset(c: Clock): Clock {
    c.(paused := 0, total := 0)
  }

  /** The audio and video probes. */
  function Probe(c: Clock, ts: Word): Word {
    Minus(ts, c.total)
  }

  /** The high-speed probe behind the video probe. */
  function HighSpeed(ts: Word, multiple: nat): Word {
    ts * multiple % U64
  }

  class Buffer {
    var timestamp: Word

    constructor (ts: Word)
      ensures timestamp == ts
    {
      timestamp := ts;
    }
  }

  class EncodeBin {
    var pausedTime: Word
    var totalOffsetTime: Word
    var pause: bool
    var block: bool
    var multiple: nat

    function Value(): Clock
      reads this
    {
      Clock(pausedTime, totalOffsetTime, pause, block)
    }

    constructor ()
      ensures Value() == Initial() && multiple == 1
    {
      pausedTime, totalOffsetTime, pause, block, multiple := 0, 0, false, false, 1;
    }

    method PauseStream(value: bool, now: Option<Word>, blockOk: bool) returns (ok: bool)
      modifies this`pausedTime, this`totalOffsetTime, this`pause, this`block
      ensures (Value(), ok) ==
              if value then PauseOn(old(Value()), now, blockOk) else PauseOff(old(Value()), now, blockOk)
    {
      if value {
        if !blockOk {
          return false;
        }
        block := true;
        if pausedTime == 0 {
          if now.Some? {
            pausedTime := now.value;
          } else {
            pausedTime, totalOffsetTime := 0, 0;
          }
        }
      } else {
        if pausedTime != 0 {
          if now.Some? {
            var gap := Minus(now.value, pausedTime);
            totalOffsetTime := (totalOffsetTime + gap) % U64;
            pausedTime := 0;
          } else {
            pausedTime, totalOffsetTime := 0, 0;
          }
        }
        if !blockOk {
          return false;
        }
        block := false;
      }
      pause := value;
      ok := true;
    }

    method SetPauseProperty(value: bool, now: Option<Word>, blockOk: bool)
      modifies this`pausedTime, this`totalOffsetTime, this`pause, this`block
      ensures Value() == SetPause(old(Value()), value, now, blockOk)
    {
      if pause != value {
        var _ := PauseStream(value, now, blockOk);
      }
    }

    method ReadyToPaused()
      modifies this`pausedTime, this`totalOffsetTime
      ensures Value() == Reset(old(Value()))
    {
      pausedTime, totalOffsetTime := 0, 0;
    }

    method TimestampProbe(b: Buffer)
      modifies b
      ensures b.timestamp == Probe(Value(), old(b.timestamp))
    {
      b.timestamp := Minus(b.timestamp, totalOffsetTime);
    }

    method HighSpeedProbe(b: Buffer)
      modifies b
      ensures b.timestamp == HighSpeed(old(b.timestamp), multiple)
    {
      b.timestamp := b.timestamp * multiple % U64;
    }
  }
}
