/** Appending to init.rc while init reads it (kernel/runtime/ksud_integration.c): when the original
    read says end of file, the proxy goes on with the built-in text and then with the modules' text. */
module RcSplice {
  import opened Bytes

  /** What init is to read. */
  function Stream(orig: ByteSeq, builtin: ByteSeq, module_: ByteSeq): ByteSeq {
    orig + builtin + module_
  }

  lemma {:induction false} OrigSlice(orig: ByteSeq, builtin: ByteSeq, module_: ByteSeq, p: nat, n: nat)
    requires p + n <= |orig|
    ensures Stream(orig, builtin, module_)[..p] + orig[p..p + n] == Stream(orig, builtin, module_)[..p + n]
  {
    assert Stream(orig, builtin, module_)[p..p + n] == orig[p..p + n];
  }

  lemma {:induction false} BuiltinSlice(orig: ByteSeq, builtin: ByteSeq, module_: ByteSeq, p: nat, n: nat)
    requires p + n <= |builtin|
    ensures Stream(orig, builtin, module_)[..|orig| + p] + builtin[p..p + n]
            == Stream(orig, builtin, module_)[..|orig| + p + n]
  {
    assert Stream(orig, builtin, module_)[|orig| + p..|orig| + p + n] == builtin[p..p + n];
  }

  lemma {:induction false} ModuleSlice(orig: ByteSeq, builtin: ByteSeq, module_: ByteSeq, p: nat, n: nat)
    requires p + n <= |module_|
    ensures Stream(orig, builtin, module_)[..|orig| + |builtin| + p] + module_[p..p + n]
            == Stream(orig, builtin, module_)[..|orig| + |builtin| + p + n]
  {
    var o := |orig| + |builtin|;
    assert Stream(orig, builtin, module_)[o + p..o + p + n] == module_[p..p + n];
  }

  function Min(a: nat, b: nat): nat {
    if a < b then a else b
  }

  class InitRc {
    const orig: ByteSeq
    const builtin: ByteSeq
    var origPos: nat
    var rcPos: nat
    var moduleBuf: ByteSeq  // emptied once it has been copied
    var modulePos: nat
    var loaded: bool
    var hooked: bool
    /** What the module text was when it was loaded, and what the reader has been given. */
    ghost var module_: ByteSeq
    ghost var output: ByteSeq

    ghost function Whole(): ByteSeq
      reads this
    {
      Stream(orig, builtin, module_)
    }

    ghost function Delivered(): nat
      reads this
    {
      origPos + rcPos + modulePos
    }

    ghost predicate Shape()
      reads this
    {
      && builtin != [] && origPos <= |orig| && rcPos <= |builtin| && modulePos <= |module_|
      && (moduleBuf == module_ || (moduleBuf == [] && modulePos == |module_|))
      && (!loaded ==> module_ == []) && (hooked ==> loaded)
      && (!hooked ==> Delivered() == 0 && output == [] && moduleBuf == module_)
    }

    /** One text is not begun before the one ahead of it is finished. */
    ghost predicate InOrder()
      reads this
    {
      (rcPos > 0 ==> origPos == |orig|) && (modulePos > 0 ==> rcPos == |builtin|)
    }

    ghost predicate Valid()
      reads this
    {
      && Shape() && InOrder()
      && Delivered() <= |Whole()| && output == Whole()[..Delivered()]
    }

    constructor (orig: ByteSeq, builtin: ByteSeq)
      requires builtin != []
      ensures Valid() && !loaded && !hooked && this.orig == orig && this.builtin == builtin
    {
      this.orig, this.builtin := orig, builtin;
      origPos, rcPos, moduleBuf, modulePos, loaded, hooked := 0, 0, [], 0, false, false;
      module_, output := [], [];
    }

    /** load_module_rc_once: `contents` is what opening and reading the file gave, if anything. */
    method LoadModuleRcOnce(disabled: bool, contents: Option<ByteSeq>)
      requires Valid() && !hooked
      modifies this`loaded, this`moduleBuf, this`module_
      ensures Valid() && loaded
      ensures module_ == if old(loaded) then old(module_)
                         else if disabled || contents.None? then [] else contents.value
    {
      if loaded {
        return;
      }
      loaded := true;
      if disabled {
        return;
      }
      if contents.None? || contents.value == [] {
        return;
      }
      moduleBuf := contents.value;
      module_ := contents.value;
    }

    /** ksu_sys_fstat on init.rc, while it is still in the system call table: the size it reports is
        the number of bytes that init will be given, unless the size cannot be read back from user
        space or written there. */
    method Fstat(disabled: bool, contents: Option<ByteSeq>, sizeRead: bool, sizeWritten: bool) returns (size: nat)
      requires Valid() && !hooked
      modifies this`loaded, this`moduleBuf, this`module_
      ensures Valid() && loaded
      ensures module_ == if old(loaded) then old(module_)
                         else if disabled || contents.None? then [] else contents.value
      ensures size == if sizeRead && sizeWritten then |Whole()| else |orig|
    {
      LoadModuleRcOnce(disabled, contents);
      size := |orig|;
      var extra := |builtin| + |moduleBuf|;
      if sizeRead && sizeWritten {
        size := size + extra;
      }
    }

    /** ksu_install_rc_hook, at the first read. */
    method InstallHook(disabled: bool, contents: Option<ByteSeq>)
      requires Valid()
      modifies this`loaded, this`moduleBuf, this`module_, this`hooked
      ensures Valid() && hooked
      ensures module_ == if old(loaded) then old(module_)
                         else if disabled || contents.None? then [] else contents.value
      ensures old(!hooked) ==> moduleBuf == module_
    {
      if hooked {
        return;
      }
      LoadModuleRcOnce(disabled, contents);
      hooked := true;
    }

    /** What the file system's own read may return: an error, or some of what is left, and 0 only
        for an empty buffer or at the end. */
    predicate OrigMayReturn(count: nat, r: int)
      reads this
    {
      r < 0 || (r <= count && origPos + r <= |orig| && (r == 0 ==> count == 0 || origPos == |orig|))
    }

    method ReadOrig(r: int) returns (data: ByteSeq)
      requires Valid() && hooked && r <= |orig| - origPos && (r > 0 ==> rcPos == 0)
      modifies this`origPos, this`output
      ensures Valid() && |data| == (if r > 0 then r else 0) && origPos == old(origPos) + |data|
      ensures output == old(output) + data
    {
      data := [];
      if r > 0 {
        OrigSlice(orig, builtin, module_, origPos, r);
        data := orig[origPos..origPos + r];
        origPos, output := origPos + r, output + data;
      }
    }

    method CopyBuiltin(n: nat) returns (data: ByteSeq)
      requires Valid() && hooked && n <= |builtin| - rcPos && modulePos == 0 && (n > 0 ==> origPos == |orig|)
      modifies this`rcPos, this`output
      ensures Valid() && |data| == n && rcPos == old(rcPos) + n && output == old(output) + data
      ensures data == builtin[old(rcPos)..rcPos]
    {
      BuiltinSlice(orig, builtin, module_, rcPos, n);
      data := builtin[rcPos..rcPos + n];
      rcPos, output := rcPos + n, output + data;
    }

    /** A piece of the module text; the last one frees the buffer. */
    method CopyModule(n: nat) returns (data: ByteSeq)
      requires Valid() && hooked && modulePos < |moduleBuf| && n <= |moduleBuf| - modulePos
      modifies this`modulePos, this`moduleBuf, this`output
      ensures Shape() && (Valid() <==> n == 0 || rcPos == |builtin|)
      ensures |data| == n && modulePos == old(modulePos) + n && output == old(output) + data
      ensures data == module_[old(modulePos)..modulePos] && (modulePos == |module_| <==> moduleBuf == [])
    {
      data := moduleBuf[modulePos..modulePos + n];
      if rcPos == |builtin| {
        ModuleSlice(orig, builtin, module_, modulePos, n);
      }
      modulePos, output := modulePos + n, output + data;
      if modulePos == |moduleBuf| {
        moduleBuf := [];
      }
    }

    lemma AllGiven()
      requires Valid() && rcPos == |builtin| && modulePos >= |moduleBuf|
      ensures origPos == |orig| ==> output == Whole()
    {
    }

    /** read_proxy. `origRet` is what the original read returns if it is called, `staticFault` and
        `moduleFault` whether copy_to_user fails. What the reader gets are the next bytes of the
        whole text, and 0 for a nonempty buffer means that there are none left. */
    method ReadProxy(count: nat, origRet: int, staticFault: bool, moduleFault: bool) returns (ret: int, data: ByteSeq)
      requires Valid() && hooked && OrigMayReturn(count, origRet)
      modifies this
      ensures Valid() && hooked && module_ == old(module_) && |data| == (if ret > 0 then ret else 0) && ret <= count
      ensures output == old(output) + data
      ensures ret < 0 ==> ret == origRet
      ensures ret == 0 && count > 0 && !staticFault && !moduleFault ==> output == Whole()
    {
      hide Stream, Whole;
      ret, data := 0, [];
      if !(rcPos > 0 && rcPos < |builtin|) && !(rcPos >= |builtin| && modulePos < |moduleBuf|) {
        ret := origRet;
        if ret != 0 {
          data := ReadOrig(ret);
          return;
        }
        if rcPos >= |builtin| && modulePos >= |moduleBuf| {
          AllGiven();
          return;
        }
      }
      if rcPos < |builtin| {
        var n := Min(|builtin| - rcPos, count - ret);
        if staticFault {
          return;
        }
        data := CopyBuiltin(n);
        ret := ret + n;
      }
      if modulePos < |moduleBuf| && ret < count {
        var n := Min(|moduleBuf| - modulePos, count - ret);
        if moduleFault {
          return;
        }
        var more := CopyModule(n);
        data := data + more;
        ret := ret + n;
      }
    }

    /** The copy of the built-in text stops short and the next copy, of the module text, does not. */
    ghost predicate Overtakes(origRet: int, n1: nat, n2: nat)
      reads this
    {
      && (if rcPos == 0 then origRet == 0 else rcPos < |builtin|)
      && 0 < n1 < |builtin| - rcPos && modulePos < |moduleBuf| && n2 > 0
    }

    /** read_iter_proxy. `room` is what the iterator still takes, n1 and n2 what copy_to_iter copies of
        the built-in and of the module text if it is called. The texts stay in order exactly when a
        short first copy is not followed by a second one. */
    method ReadIterProxy(room: nat, origRet: int, n1: nat, n2: nat) returns (ret: int, data: ByteSeq)
      requires Valid() && hooked && OrigMayReturn(room, origRet)
      requires rcPos < |builtin| ==> n1 <= Min(|builtin| - rcPos, room)
      requires modulePos < |moduleBuf| ==> n2 <= Min(|moduleBuf| - modulePos, if rcPos < |builtin| then room - n1 else room)
      modifies this
      ensures Shape() && (Valid() <==> !old(Overtakes(origRet, n1, n2)))
      ensures hooked && module_ == old(module_) && |data| == (if ret > 0 then ret else 0) && ret <= room
      ensures output == old(output) + data
      ensures old(Overtakes(origRet, n1, n2))
              ==> data == builtin[old(rcPos)..old(rcPos) + n1] + module_[old(modulePos)..old(modulePos) + n2]
      ensures ret < 0 ==> ret == origRet
      ensures ret == 0 && room > 0 && (if old(rcPos) < |builtin| then n1 > 0 else old(modulePos < |moduleBuf|) ==> n2 > 0)
              ==> output == Whole()
    {
      hide Stream, Whole;
      ret, data := 0, [];
      if !(rcPos > 0 && rcPos < |builtin|) && !(rcPos >= |builtin| && modulePos < |moduleBuf|) {
        ret := origRet;
        if ret != 0 {
          data := ReadOrig(ret);
          return;
        }
        if rcPos >= |builtin| && modulePos >= |moduleBuf| {
          AllGiven();
          return;
        }
      }
      if rcPos < |builtin| {
        if n1 == 0 {
          return;
        }
        data := CopyBuiltin(n1);
        ret := ret + n1;
      }
      if modulePos < |moduleBuf| {
        if n2 == 0 {
          return;
        }
        var more := CopyModule(n2);
        data := data + more;
        ret := ret + n2;
      }
    }

    /** An iterator whose fault does not go away never reorders. */
    lemma {:induction false} PersistentFaultKeepsOrder(room: nat, origRet: int, n1: nat, n2: nat)
      requires Valid() && rcPos < |builtin| && n1 <= Min(|builtin| - rcPos, room)
      requires n1 < Min(|builtin| - rcPos, room) ==> n2 == 0
      requires n2 <= room - n1
      ensures !Overtakes(origRet, n1, n2)
    {
      if n1 < |builtin| - rcPos && n1 == room {
        assert n2 == 0;
      }
    }

    /** One read by either path, without faults, of a buffer of any size. */
    method ReadSome(count: nat) returns (data: ByteSeq)
      requires Valid() && hooked && count > 0
      modifies this
      ensures Valid() && hooked && module_ == old(module_) && output == old(output) + data
      ensures data == [] ==> output == Whole()
    {
      assert OrigMayReturn(count, Min(count, |orig| - origPos));
      var r: nat :| OrigMayReturn(count, r);
      var ret: int;
      var viaIter: bool := *;
      if viaIter {
        var n1 := Min(|builtin| - rcPos, count);
        var n2 := Min(|moduleBuf| - (if modulePos < |moduleBuf| then modulePos else |moduleBuf|), count - n1);
        ret, data := ReadIterProxy(count, r, n1, n2);
      } else {
        ret, data := ReadProxy(count, r, false, false);
      }
    }

    /** init's loop: read until a read gives nothing. */
    method ReadToEnd() returns (text: ByteSeq)
      requires Valid() && hooked && output == []
      modifies this
      ensures Valid() && module_ == old(module_) && text == Whole()
    {
      text := [];
      while true
        invariant Valid() && hooked && module_ == old(module_) && text == output
        decreases |Whole()| - |output|
      {
        var count: nat :| count > 0;
        var data := ReadSome(count);
        text := text + data;
        if data == [] {
          break;
        }
      }
    }
  }

  /** A boot: init asks for the size, then reads to the end in pieces of any size, by either path. It
      reads the original file, the built-in text and the modules' text, and as much as announced. */
  method Boot(orig: ByteSeq, builtin: ByteSeq, disabled: bool, contents: Option<ByteSeq>) returns (size: nat, text: ByteSeq)
    requires builtin != []
    ensures text == orig + builtin + if disabled || contents.None? then [] else contents.value
    ensures size == |text|
  {
    var rc := new InitRc(orig, builtin);
    size := rc.Fstat(disabled, contents, true, true);
    rc.InstallHook(disabled, contents);
    text := rc.ReadToEnd();
  }

  /** A fault that goes away between the two copies of one read loses the order. */
  method OvertakingExample() returns (text: ByteSeq)
    ensures text == [1, 3] && !(text <= Stream([], [1, 2], [3]))
  {
    var rc := new InitRc([], [1, 2]);
    rc.InstallHook(false, Some([3]));
    var ret;
    ret, text := rc.ReadIterProxy(8, 0, 1, 1);
    assert text[1] != Stream([], [1, 2], [3])[1];
  }
}
