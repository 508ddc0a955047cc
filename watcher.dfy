/**
 * WatcherDisabler: a scope that switches a FileSystemWatcher's events off while the database
 * writes its own files, and on again when it is disposed.
 */
module Watcher {

  /** The one part of System.IO.FileSystemWatcher the disabler touches. */
  class FileSystemWatcher {
    var enableRaisingEvents: bool

    constructor(enabled: bool)
      ensures enableRaisingEvents == enabled
    {
      enableRaisingEvents := enabled;
    }
  }

  class WatcherDisabler {
    const watcher: FileSystemWatcher

    /** Opening the scope switches the watcher's events off, whatever they were. */
    constructor(fileSystemWatcher: FileSystemWatcher)
      modifies fileSystemWatcher
      ensures watcher == fileSystemWatcher && !fileSystemWatcher.enableRaisingEvents
    {
      watcher := fileSystemWatcher;
      new;
      fileSystemWatcher.enableRaisingEvents := false;
    }

    /** Disposing switches them on, whatever they were before the scope opened. */
    method Dispose()
      modifies watcher
      ensures watcher.enableRaisingEvents
    {
      watcher.enableRaisingEvents := true;
    }
  }

  /**
   * The earlier value is not kept: a watcher that was off before a scope is on after it, and
   * no other watcher changes.
   */
  method DisabledScope(w: FileSystemWatcher, other: FileSystemWatcher) returns (during: bool)
    requires !w.enableRaisingEvents && other != w
    modifies w
    ensures !during && w.enableRaisingEvents && other.enableRaisingEvents == old(other.enableRaisingEvents)
  {
    var scope := new WatcherDisabler(w);
    during := w.enableRaisingEvents;
    scope.Dispose();
  }

  /** Nested scopes do not count: disposing the inner one switches events on while the outer one is still open. */
  method NestedScopes(w: FileSystemWatcher) returns (afterInner: bool)
    modifies w
    ensures afterInner && w.enableRaisingEvents
  {
    var outer := new WatcherDisabler(w);
    var inner := new WatcherDisabler(w);
    inner.Dispose();
    afterInner := w.enableRaisingEvents;
    outer.Dispose();
  }
}
