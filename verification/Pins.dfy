/** The pin store: which identity key was first seen under which device name. */
module Pins {
  import opened Wire

  /** From identity key to the device name it was pinned with. */
  type PinMap = map<string, Option<string>>

  /** `key` is pinned under `name`, which now appears with the other key `presented`. */
  predicate Conflicts(pins: PinMap, presented: string, name: string, key: string) {
    key in pins && pins[key] == Some(name) && key != presented
  }

  ghost predicate OneKeyPerName(pins: PinMap) {
    forall k1, k2 :: k1 in pins && k2 in pins && pins[k1].Some? && pins[k1] == pins[k2] ==> k1 == k2
  }

  function KeyPrefix(key: string): string { (if |key| <= 12 then key else key[..12]) + "..." }

  /** The old key a mismatch is reported with. */
  ghost function MismatchOf(pins: PinMap, presented: string, name: string): Option<string> {
    if exists key :: Conflicts(pins, presented, name, key)
    then var key :| Conflicts(pins, presented, name, key); Some(KeyPrefix(key))
    else None
  }

  function AfterPin(pins: PinMap, key: string, name: Option<string>): PinMap {
    if key in pins then pins else pins[key := name]
  }

  /** The first twelve characters of a key, or the whole of a shorter one, and three dots. */
  lemma KeyPrefixIs(key: string, rest: string)
    requires |key| == 12 || (|key| < 12 && rest == "")
    ensures KeyPrefix(key + rest) == key + "..."
  {
    assert (key + rest)[..|key|] == key;
  }

  /** A mismatch is found exactly if another key has the name, and it names such a key. */
  lemma MismatchExactly(pins: PinMap, presented: string, name: string)
    ensures MismatchOf(pins, presented, name).Some? <==>
              exists key :: key in pins && pins[key] == Some(name) && key != presented
    ensures MismatchOf(pins, presented, name).Some? ==>
              exists key :: key in pins && pins[key] == Some(name) && key != presented
                            && MismatchOf(pins, presented, name).value == KeyPrefix(key)
  {
    if key :| key in pins && pins[key] == Some(name) && key != presented {
      assert Conflicts(pins, presented, name, key);
    }
  }

  /** Pinning what passed the mismatch check keeps one key per name. */
  lemma PinningKeepsOneKeyPerName(pins: PinMap, key: string, name: Option<string>)
    requires OneKeyPerName(pins)
    requires name.Some? ==> MismatchOf(pins, key, name.value) == None
    ensures OneKeyPerName(AfterPin(pins, key, name))
    ensures forall k :: k in pins ==> k in AfterPin(pins, key, name) && AfterPin(pins, key, name)[k] == pins[k]
  {
    forall k | k in pins && k != key && name.Some? ensures pins[k] != name {
      assert !Conflicts(pins, key, name.value, k);
    }
  }

  class PinStore {
    var pins: PinMap

    constructor (loaded: PinMap)
      ensures pins == loaded
    {
      pins := loaded;
    }

    method Pin(key: string, name: Option<string>)
      modifies this
      ensures pins == AfterPin(old(pins), key, name)
    {
      if key !in pins { pins := pins[key := name]; }
    }

    /** Entries are visited in any order; the answer does not depend on it. */
    method CheckMismatch(presented: string, name: string) returns (r: Option<string>)
      ensures r.Some? <==> exists key :: key in pins && pins[key] == Some(name) && key != presented
      ensures r.Some? ==> exists key :: key in pins && pins[key] == Some(name) && key != presented
                                        && r.value == KeyPrefix(key)
      ensures OneKeyPerName(pins) ==> r == MismatchOf(pins, presented, name)
    {
      MismatchExactly(pins, presented, name);
      var todo := pins.Keys;
      while todo != {}
        invariant todo <= pins.Keys
        invariant forall key :: key in pins && pins[key] == Some(name) && key != presented ==> key in todo
        decreases todo
      {
        var key :| key in todo;
        if pins[key] == Some(name) && key != presented {
          return Some(KeyPrefix(key));
        }
        todo := todo - {key};
      }
      return None;
    }
  }
}
