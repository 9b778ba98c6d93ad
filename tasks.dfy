/** Per-fd accumulation of received text (the root `tasks.py`): a manager
    maps each fd to a task holding the chunks received for it, joined only
    when the text is read. */
module Tasks {
  import opened PyText

  class Task {
    const fd: int
    /** `__data`: never empty; joined into one element by `Data`. */
    var chunks: seq<string>
    /** `__disconnnect`, the flag `__init__` sets (with a third `n`); no
        method reads or writes it afterwards. */
    var initFlag: bool
    /** `__disconnect`, the flag `disconnect` sets. */
    var disconnected: bool

    predicate Valid()
      reads this
    {
      |chunks| >= 1
    }

    /** The text received so far. */
    function Text(): string
      reads this
    {
      Concat(chunks)
    }

    /** `Task(fd, data)`: the `disconnected` argument is ignored. */
    constructor(fd: int, data: string)
      ensures Valid() && this.fd == fd && chunks == [data] && Text() == data
      ensures !initFlag && !disconnected
    {
      this.fd := fd;
      chunks := [data];
      initFlag := false;
      disconnected := false;
      assert Concat([data]) == data + Concat([]);
    }

    /** `append`: one more chunk at the end. */
    method Append(data: string)
      requires Valid()
      modifies this
      ensures Valid() && chunks == old(chunks) + [data]
      ensures Text() == old(Text()) + data
      ensures initFlag == old(initFlag) && disconnected == old(disconnected)
    {
      ConcatAppend(chunks, data);
      chunks := chunks + [data];
    }

    /** The `data` property: the text received so far; a list of several
        chunks is replaced by the single joined chunk, so the text is kept
        and a later read returns the same string. */
    method Data() returns (r: string)
      requires Valid()
      modifies this
      ensures Valid() && r == old(Text()) && Text() == old(Text())
      ensures chunks == [r]
      ensures initFlag == old(initFlag) && disconnected == old(disconnected)
    {
      if |chunks| > 1 {
        chunks := [Concat(chunks)];
      } else {
        assert chunks == [chunks[0]];
      }
      r := chunks[0];
      assert Concat(chunks) == r + Concat([]);
    }

    /** `check`: prints the text; the printed string is returned. */
    method Check() returns (shown: string)
      requires Valid()
      modifies this
      ensures Valid() && shown == old(Text()) && Text() == old(Text()) && chunks == [shown]
      ensures initFlag == old(initFlag) && disconnected == old(disconnected)
    {
      shown := Data();
    }

    /** `disconnect`: sets the flag `disconnect` owns; the one `__init__`
        set stays as it was. */
    method Disconnect()
      modifies this
      ensures disconnected && initFlag == old(initFlag) && chunks == old(chunks)
    {
      disconnected := true;
    }
  }

  class Manager {
    /** `__tasks`. */
    var tasks: map<int, Task>

    /** Each task is filed under its own fd, so no two entries share one. */
    predicate Valid()
      reads this, tasks.Values
    {
      forall fd :: fd in tasks ==> tasks[fd].fd == fd && tasks[fd].Valid()
    }

    /** The text received for each fd. */
    function Contents(): map<int, string>
      reads this, tasks.Values
    {
      map fd | fd in tasks :: tasks[fd].Text()
    }

    /** The objects an operation on `fd` may change. */
    function Entry(fd: int): set<object>
      reads this
    {
      if fd in tasks then {tasks[fd]} else {}
    }

    constructor()
      ensures Valid() && tasks == map[] && Contents() == map[]
    {
      tasks := map[];
    }

    /** `check(fd)`: print the fd's text when it has a task (a task is
        always true); an unknown fd prints nothing. */
    method Check(fd: int) returns (shown: Option<string>)
      requires Valid()
      modifies Entry(fd)
      ensures Valid() && tasks == old(tasks) && Contents() == old(Contents())
      ensures fd !in tasks ==> shown == None
      ensures fd in tasks ==> shown == Some(Contents()[fd]) && tasks[fd].chunks == [Contents()[fd]]
      ensures forall k :: k in tasks ==>
        tasks[k].disconnected == old(tasks[k].disconnected) && tasks[k].initFlag == old(tasks[k].initFlag)
    {
      if fd !in tasks {
        return None;
      }
      var task := tasks[fd];
      var s := task.Check();
      shown := Some(s);
      assert forall k :: k in tasks && k != fd ==> tasks[k] != task;
    }

    /** `add(fd, data)`: append to the fd's task, or file `Task(fd, data)`
        for a new fd; then check (print) that fd. No other fd's text
        changes. */
    method Add(fd: int, data: string) returns (shown: string)
      requires Valid()
      modifies this, Entry(fd)
      ensures Valid()
      ensures tasks.Keys == old(tasks).Keys + {fd}
      ensures forall k :: k in old(tasks) ==> tasks[k] == old(tasks)[k]
      ensures Contents() == old(Contents())[fd := if fd in old(tasks) then old(Contents())[fd] + data else data]
      ensures shown == Contents()[fd] && tasks[fd].chunks == [shown]
      ensures fd !in old(tasks) ==> fresh(tasks[fd]) && !tasks[fd].disconnected && !tasks[fd].initFlag
      ensures forall k :: k in old(tasks) ==> tasks[k].disconnected == old(tasks[k].disconnected)
    {
      File(fd, data);
      var s := Check(fd);
      shown := s.value;
    }

    /** The filing half of `add`: the data goes to the fd's task, a fresh
        one for a new fd. */
    method File(fd: int, data: string)
      requires Valid()
      modifies this, Entry(fd)
      ensures Valid()
      ensures tasks.Keys == old(tasks).Keys + {fd}
      ensures forall k :: k in old(tasks) ==> tasks[k] == old(tasks)[k]
      ensures Contents() == old(Contents())[fd := if fd in old(tasks) then old(Contents())[fd] + data else data]
      ensures fd !in old(tasks) ==> fresh(tasks[fd]) && !tasks[fd].disconnected && !tasks[fd].initFlag
      ensures forall k :: k in old(tasks) ==> tasks[k].disconnected == old(tasks[k].disconnected)
    {
      if fd in tasks {
        var task := tasks[fd];
        task.Append(data);
        assert forall k :: k in tasks && k != fd ==> tasks[k] != task;
      } else {
        var task := new Task(fd, data);
        tasks := tasks[fd := task];
      }
    }

    /** `disconnect(fd)`: flag the fd's task; an unknown fd changes nothing. */
    method Disconnect(fd: int)
      requires Valid()
      modifies Entry(fd)
      ensures Valid() && tasks == old(tasks) && Contents() == old(Contents())
      ensures fd in tasks ==> tasks[fd].disconnected
      ensures forall k :: k in tasks && k != fd ==> tasks[k].disconnected == old(tasks[k].disconnected)
    {
      if fd in tasks {
        var task := tasks[fd];
        task.Disconnect();
        assert forall k :: k in tasks && k != fd ==> tasks[k] != task;
      }
    }
  }
}
