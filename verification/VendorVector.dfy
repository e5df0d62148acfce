/**
 The id vector of the consent bundle: a set of positive ids together with its
 running maximum (class `H` of docs/theme/c15t@2.0.0-rc.3.js).
 */
module VendorVector {
  import opened Prelude
  import opened TcBits

  /** `maxId` is the maximum of a set of positive ids, zero when the set is empty. */
  ghost predicate IsMaximum(ids: set<nat>, maxId: nat) {
    && (forall x :: x in ids ==> 1 <= x <= maxId)
    && (if ids == {} then maxId == 0 else maxId in ids)
  }

  class Vector {
    var ids: set<nat>
    var maxId: nat
    var bitLength: nat

    ghost predicate Valid()
      reads this
    {
      IsMaximum(ids, maxId)
    }

    constructor ()
      ensures Valid() && ids == {} && bitLength == 0
    {
      ids, maxId, bitLength := {}, 0, 0;
    }

    method Set(x: int) returns (r: Result<(), TcError>)
      requires Valid()
      modifies this
      ensures Valid()
      ensures r.Ok? <==> x > 0
      ensures r.Ok? ==> ids == old(ids) + {x} && bitLength == 0
      ensures r.Err? ==> r.error == ModelError && ids == old(ids) && bitLength == old(bitLength)
    {
      if x <= 0 {
        return Err(ModelError);
      }
      ids := ids + {x};
      maxId := if x > maxId then x else maxId;
      bitLength := 0;
      return Ok(());
    }

    /** Removing the maximum rescans the set for the new one. */
    method Unset(x: nat)
      requires Valid()
      modifies this
      ensures Valid()
      ensures ids == old(ids) - {x} && bitLength == 0
    {
      var top := maxId;
      ids := ids - {x};
      bitLength := 0;
      if x == top {
        maxId := 0;
        var rest := ids;
        while rest != {}
          invariant rest <= ids == old(ids) - {x}
          invariant bitLength == 0
          invariant IsMaximum(ids - rest, maxId)
        {
          var y :| y in rest;
          assert ids - (rest - {y}) == (ids - rest) + {y};
          maxId := if y > maxId then y else maxId;
          rest := rest - {y};
        }
        assert ids - rest == ids;
      } else {
        assert top in old(ids) ==> top in ids;
      }
    }

    method Empty()
      requires Valid()
      modifies this
      ensures Valid() && ids == {} && bitLength == old(bitLength)
    {
      ids, maxId := {}, 0;
    }
  }
}
