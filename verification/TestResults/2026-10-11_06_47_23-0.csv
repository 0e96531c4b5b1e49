TestResult.DisplayName,TestResult.Outcome,TestResult.Duration,TestResult.ResourceCount,RandomSeed
Workflow.QuickStatusChange (correctness),Failed,00:00:01.2330210,2091446,2
Workflow.QuickStatusChange (well-formedness),Passed,00:00:00.2969444,109042,2
