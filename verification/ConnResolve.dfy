/** Where a statement goes: the connection that its marker names. */
module ConnResolve {
  import opened Text
  import opened NameCompare
  import opened ConnMarker

  /** Connection `k` is the first one with this name. */
  ghost predicate FirstNamed(conns: seq<Conn>, name: string, k: nat) {
    && k < |conns| && SameName(conns[k].name, name)
    && forall i :: 0 <= i < k ==> !SameName(conns[i].name, name)
  }

  ghost predicate NoneNamed(conns: seq<Conn>, name: string) {
    forall i :: 0 <= i < |conns| ==> !SameName(conns[i].name, name)
  }

  /** The search finds the first connection with the name, and nothing when there is none. */
  lemma {:induction false} FindMeans(conns: seq<Conn>, name: string)
    ensures FindConn(conns, name).None? <==> NoneNamed(conns, name)
    ensures forall k: nat :: FirstNamed(conns, name, k) ==> FindConn(conns, name) == Some(conns[k])
  {
    if conns != [] {
      NormMeans(conns[0].name, name);
      FindMeans(conns[1..], name);
      hide Norm, SameName;
      assert forall i :: 0 <= i < |conns| - 1 ==> conns[1..][i] == conns[i + 1];
      if !SameName(conns[0].name, name) {
        if NoneNamed(conns[1..], name) {
          forall i | 0 <= i < |conns| ensures !SameName(conns[i].name, name) {
            assert i > 0 ==> conns[i] == conns[1..][i - 1];
          }
        }
        forall k: nat | FirstNamed(conns, name, k) ensures FindConn(conns, name) == Some(conns[k]) {
          assert k > 0;
          assert FirstNamed(conns[1..], name, k - 1);
        }
      }
    }
  }

  lemma {:induction false} SomeFirst(conns: seq<Conn>, name: string) returns (k: nat)
    requires !NoneNamed(conns, name)
    ensures FirstNamed(conns, name, k)
  {
    hide SameName;
    if SameName(conns[0].name, name) {
      k := 0;
    } else {
      assert !NoneNamed(conns[1..], name) by {
        var i :| 0 <= i < |conns| && SameName(conns[i].name, name);
        assert SameName(conns[1..][i - 1].name, name);
      }
      var j := SomeFirst(conns[1..], name);
      k := j + 1;
      forall i | 0 <= i < k ensures !SameName(conns[i].name, name) {
        assert i > 0 ==> conns[i] == conns[1..][i - 1];
      }
    }
  }

  /**
   * A statement follows the default connection exactly when it shows no marker. With one marker that has a name it goes
   * to the first connection of that name, or to the federated query of that name, and in all other cases it is refused;
   * names are compared without surrounding space and letter case.
   */
  lemma {:induction false} ResolveMeans(text: string, conns: seq<Conn>)
    ensures
      var marks, r := Markers(text, 0), Resolve(text, conns);
      && (r == Inherit <==> marks == [])
      && (|marks| > 1 <==> r == Error(TooMany(|marks|)))
      && (|marks| == 1 && marks[0].name == "" <==> r == Error(NoName))
      && (|marks| == 1 && marks[0].name != "" ==>
            && (forall k: nat :: FirstNamed(conns, marks[0].name, k) ==>
                  r == Connection(conns[k].id, conns[k].name, conns[k].kind))
            && (NoneNamed(conns, marks[0].name) ==>
                  r == if SameName(marks[0].name, "연합 조회") then Duck else Error(NotFound(marks[0].name))))
    ensures
      var marks, r := Markers(text, 0), Resolve(text, conns);
      && (r.Connection? <==> |marks| == 1 && marks[0].name != "" && !NoneNamed(conns, marks[0].name))
      && (r.Duck? <==>
            |marks| == 1 && marks[0].name != "" && NoneNamed(conns, marks[0].name) && SameName(marks[0].name, "연합 조회"))
  {
    var marks := Markers(text, 0);
    hide Exec, Norm, SameName, FirstNamed, NoneNamed, FindConn;
    if |marks| == 1 && marks[0].name != "" {
      var name := marks[0].name;
      FindMeans(conns, name);
      NormMeans(name, DUCK_MARKER_NAME);
      if !NoneNamed(conns, name) {
        var k := SomeFirst(conns, name);
      }
    }
  }
}
