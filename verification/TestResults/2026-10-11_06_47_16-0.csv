TestResult.DisplayName,TestResult.Outcome,TestResult.Duration,TestResult.ResourceCount,RandomSeed
Workflow.QuickStatusChange (correctness),Passed,00:00:01.4252237,2091462,0
Workflow.QuickStatusChange (well-formedness),Passed,00:00:00.3968994,107192,0
